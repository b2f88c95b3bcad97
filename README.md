# kubeapps-apis plugin bookkeeping, in Dafny

This project models the plugin bookkeeping of the kubeapps-apis core server.
The file that implements it is not part of this model. Its behaviour is
pinned down here by the server's test file,
`cmd/kubeapps-apis/server/plugins_test.go`. There are three parts.

- **Plugin descriptors** (module `Plugins`). A plugin is a `{Name, Version}` pair.
  - `pluginEqual` compares both fields.
  - `sortPlugins` sorts a slice of plugins in place, by name and then by version.
  - Both comparisons are Go's plain string `<`, not semantic-version order, so `v1` < `v1alpha1` < `v1alpha2` < `v1beta1`.
  - `SortPlugins` is a method over an `array<Plugin>` (insertion sort by adjacent swaps). It is proved to leave the array equal to the reference insertion sort `Ordering.Sort` of its old contents.
  - Because the order is a strict total order, a sorted permutation is unique (`Ordering.SortedPermutationUnique`). Any correct sort therefore gives the same result.
- **The inventory read** (module `Inventory`). `pluginsServer.GetConfiguredPlugins` returns the plugin list the server was built with, verbatim, and never fails.
- **Plugin file discovery** (module `Discovery`). `listSOFiles(fs, pluginsDirs)` returns the full paths of the `.so` files of each configured directory.
  - Every other suffix is dropped.
  - Each directory's files come out in name order.
  - The directories follow one another in the order given, so the result is not one global sort.
  - The file system is a map from a directory path to the names of its entries. Entries are kept in creation order, which the listing does not depend on.

Supporting modules:
- `Strings`: Go's byte-wise string order as a lexicographic order on `seq<char>`, where a proper prefix sorts first.
- `Ordering`: sortedness, a reference insertion sort, and uniqueness of the sorted permutation, for any strict total order.
- `Wrappers`: a `Result` type for the error paths.

## Model

| member | source | states |
|---|---|---|
| Plugins.PluginEqual | cmd/kubeapps-apis/server/plugins_test.go:76-78 | true exactly when name and version both match, i.e. exactly when the two descriptors are the same value |
| Plugins.PluginsEqual | cmd/kubeapps-apis/server/plugins_test.go:162 | `cmp.Equal(want, got, cmp.Comparer(pluginEqual))`: the two slices have the same length and `pluginEqual` holds at every position |
| Plugins.PluginsEqualIsIdentity | cmd/kubeapps-apis/server/plugins_test.go:69-71 | `cmp.Equal` with the `pluginEqual` comparer holds exactly when both slices hold the same descriptors in the same order |
| Plugins.Less | cmd/kubeapps-apis/server/plugins_test.go:110-154 | the `sortPlugins` order: a descriptor sorts first when its name is the smaller string, or when the names are equal and its version is the smaller string |
| Plugins.LessAsymmetric | cmd/kubeapps-apis/server/plugins_test.go:110-154 | if one descriptor sorts before another (by name, then by version), the second never sorts before the first |
| Plugins.LessIsStrictTotalOrder | cmd/kubeapps-apis/server/plugins_test.go:110-154 | name-then-version order is asymmetric, transitive and total on distinct descriptors, so the sorted order is fully determined |
| Plugins.SortedByNameThenVersion | cmd/kubeapps-apis/server/plugins_test.go:87-154 | in a sorted slice, names never decrease, and among equal names versions never decrease, for every pair of positions |
| Plugins.SortPlugins | cmd/kubeapps-apis/server/plugins_test.go:158-164 | afterwards the caller's array is sorted by name then version, holds the same multiset of descriptors, and equals the reference sort of its old contents |
| Plugins.InsertAt | cmd/kubeapps-apis/server/plugins_test.go:160 | one insertion step: afterwards the first `i + 1` elements are sorted and hold the same multiset as before, and every element after position `i` is where it was |
| Plugins.SortPluginsIdempotent | cmd/kubeapps-apis/server/plugins_test.go:160-162 | sorting a slice that is already sorted leaves it unchanged |
| Plugins.SortByNameExample | cmd/kubeapps-apis/server/plugins_test.go:87-107 | `kapp_controller.packages` then `fluxv2.packages` sort to `fluxv2.packages` first |
| Plugins.VersionStringsInOrder | cmd/kubeapps-apis/server/plugins_test.go:121-130 | as strings, `v1` < `v1alpha1` < `v1alpha2` < `v1beta1` |
| Plugins.VersionExampleSorted | cmd/kubeapps-apis/server/plugins_test.go:133-154 | the expected order of the version test case is sorted by name then version |
| Plugins.SortByVersionExample | cmd/kubeapps-apis/server/plugins_test.go:110-154 | the five descriptors of the version test case sort to exactly the expected sequence |
| Strings.Less | cmd/kubeapps-apis/server/plugins_test.go:121-130 | Go's string `<`: strings are compared character by character from the front, the first differing character decides, and a string that runs out first (a proper prefix) sorts first |
| Strings.LessAtFirstDifference | cmd/kubeapps-apis/server/plugins_test.go:110-154 | one string sorts before another exactly when, at the first position where they differ, its character is smaller, or it ends there first |
| Strings.LessIsStrictTotalOrder | cmd/kubeapps-apis/server/plugins_test.go:110-154 | string order is asymmetric, transitive and total on distinct strings |
| Strings.ProperPrefixIsLess | cmd/kubeapps-apis/server/plugins_test.go:121-126 | a proper prefix sorts before the longer string (`v1` before `v1alpha1`) |
| Strings.LessAfterCommonPrefix | cmd/kubeapps-apis/server/plugins_test.go:198-203 | a common prefix does not change how two strings compare |
| Ordering.Sort | cmd/kubeapps-apis/server/plugins_test.go:160-162 | the reference sort yields a sorted permutation of its input |
| Ordering.SortedPermutationUnique | cmd/kubeapps-apis/server/plugins_test.go:160-162 | under a strict total order, two sorted sequences with the same multiset of elements are equal |
| Ordering.SortIgnoresInputOrder | cmd/kubeapps-apis/server/plugins_test.go:111-132 | sorting two permutations of the same elements gives the same sequence |
| Inventory.GetConfiguredPlugins | cmd/kubeapps-apis/server/plugins_test.go:58-71 | every request succeeds, and the answer equals the configured list under `pluginEqual`, position by position |
| Inventory.InventoryEchoesConfiguration | cmd/kubeapps-apis/server/plugins_test.go:32-53 | the answer is the configured list itself: same length, same order, same multiset |
| Discovery.IsPluginFile | cmd/kubeapps-apis/server/plugins_test.go:178-181 | an entry is a plugin file exactly when its name ends in `.so`, so `not-an-so.txt` and `not-an-so.woo` are not |
| Discovery.JoinPath | cmd/kubeapps-apis/server/plugins_test.go:183-187 | the full path of entry `name` in directory `dir` is `dir`, then `/`, then `name` (`/tmp/plugins` and `bar.so` give `/tmp/plugins/bar.so`) |
| Discovery.JoinPathKeepsSuffix | cmd/kubeapps-apis/server/plugins_test.go:179-181 | a full path ends in `.so` exactly when the entry name does |
| Discovery.PluginNamesCounts | cmd/kubeapps-apis/server/plugins_test.go:178-181 | filtering keeps every `.so` entry as often as it occurs and drops every other entry |
| Discovery.ListDir | cmd/kubeapps-apis/server/plugins_test.go:179-186 | one directory lists the full path of each of its `.so` entries, every listed path is the full path of one of its `.so` entries, the list is sorted, and it has one path per `.so` entry |
| Discovery.ListDirIgnoresCreationOrder | cmd/kubeapps-apis/server/plugins_test.go:179-186 | a directory's listing does not depend on the order its files were created in |
| Discovery.ListSOFiles | cmd/kubeapps-apis/server/plugins_test.go:207-219 | the listing fails exactly when some configured directory does not exist, and then names such a directory |
| Discovery.ListSOFilesReportsFirstMissing | cmd/kubeapps-apis/server/plugins_test.go:211-214 | the error names the first configured directory that is missing |
| Discovery.ListSOFilesStopsAtMissing | cmd/kubeapps-apis/server/plugins_test.go:211-214 | a missing directory stops the listing: directories configured after it do not change the outcome |
| Discovery.ListSOFilesOnlySOFiles | cmd/kubeapps-apis/server/plugins_test.go:177-188 | every listed path ends in `.so` |
| Discovery.ListSOFilesSound | cmd/kubeapps-apis/server/plugins_test.go:190-203 | every listed path is the full path of a `.so` entry of a configured, existing directory |
| Discovery.ListSOFilesComplete | cmd/kubeapps-apis/server/plugins_test.go:190-203 | every `.so` entry of every configured directory is listed under its full path |
| Discovery.ListSOFilesConcat | cmd/kubeapps-apis/server/plugins_test.go:198-203 | listing the directories `d1 + d2` gives the listing of `d1` followed by the listing of `d2` |
| Discovery.ListSOFilesOneDirectory | cmd/kubeapps-apis/server/plugins_test.go:183-187 | listing a single existing directory gives that directory's sorted `.so` paths |
| Discovery.PluginsDirectoryListing | cmd/kubeapps-apis/server/plugins_test.go:178-187 | `/tmp/plugins` with `foo.so`, `bar.so` and `not-an-so.txt` lists `/tmp/plugins/bar.so`, then `/tmp/plugins/foo.so` |
| Discovery.FindsOnlySOFilesExample | cmd/kubeapps-apis/server/plugins_test.go:177-188 | the first discovery test case yields exactly its expected paths |
| Discovery.MultipleDirectoriesExample | cmd/kubeapps-apis/server/plugins_test.go:190-203 | the second discovery test case yields `/tmp/plugins/bar.so`, `/tmp/plugins/foo.so`, `/tmp/other/zap.so` in that order |
| Discovery.NotOneGlobalSort | cmd/kubeapps-apis/server/plugins_test.go:198-203 | the expected multi-directory result is not sorted as a whole, so the listing is not one global sort |

## Left out

- `Serve` (cmd/kubeapps-apis/server/server.go): the gRPC server, the grpc-gateway mux, the TCP listener, cmux protocol sniffing and the two serving goroutines. These are network I/O and concurrency in library code that is not part of this model.
- `gwHandlerArgs` (cmd/kubeapps-apis/server/server.go): a plain bundle of context, mux and dial options with no behaviour.
- Loading the discovered `.so` files and calling their registration entry points. These are foreign runtime calls, and the code that makes them is not part of this model.
- `createTestFS`: its `filepath.Rel` against `pluginRootDir` and the `fstest.MapFS` it fills. The model builds the file system map directly, and the value of `pluginRootDir` is not part of this model.
- Path cleaning: `filepath.Join` would clean `dir` (a trailing `/`, `..`). `JoinPath` joins with one `/` and assumes clean directory paths, as in the tests.
- Glob metacharacters in a directory name, and nested directories: a directory is modelled as a flat list of entry names.
- The `context.Context` argument of `GetConfiguredPlugins`: it carries no data the answer depends on.
- Pointer identity: Go slices of `*Plugin` are modelled as sequences of descriptor values. `pluginEqual` compares values, so this matches what the tests observe.
- Stability of the sort: two descriptors that neither sorts before are the same value, so no input can tell a stable sort from an unstable one.
- Nil versus empty slices: both are the empty sequence.
- Character order: strings are compared by code point. For valid UTF-8 this is the same order as Go's byte-wise `<`. Invalid UTF-8 is not modelled.
- A missing plugin directory. The tests never exercise it. The model follows the design documentation and reports the first missing directory as `DirectoryNotFound`. The implementation is not part of this model; if it lists directories with `fs.Glob`, it would instead skip the directory silently.
- Ordering of the whole discovery result. The design documentation describes one global sort by full path. The tests expect per-directory order (`/tmp/plugins/*` before `/tmp/other/zap.so`), and the model follows the tests.
- Ordering of the inventory answer. The design documentation says the answer is sorted. The tests show the configured list returned verbatim, and the model follows the tests.
- `useOutsideClick.js` (dashboard): a React hook that adds and removes DOM `mousedown` listeners. It is browser event plumbing, outside this core.
