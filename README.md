# Layered configuration container — a Dafny model

This project models the configuration container of the `figure` crate
(`src/config.rs`). A container holds three things:

- `raw`, the untyped JSON tree loaded from the configuration sources;
- `overlay`, a second JSON tree holding only the runtime overrides written
  through dotted paths such as `"server.port"`;
- `built`, the typed configuration value, deserialised from `overlay`
  merged onto `raw` with JSON Merge Patch (section 2 of RFC 7396).

The model has seven modules in six files:

- `Wrappers` (`wrappers.dfy`): `Option`, `Result` and `Outcome`.
- `Json` (`json.dfy`): the JSON tree and serde_json's indexing `value[key]`.
  Indexing yields `null` for a missing key or a non-object node.
- `JsonPatch` (`jsonpatch.dfy`): the merge as a recursive function, with its
  rules and lemmas.
- `DottedPath` (`dotted_path.dfy`): splitting a path at `.` and the nested
  single-key patch a write produces.
- `Config` (`config.dfy`): the container as a class `Config<T>` with fields
  `raw`, `overlay` and `built`. Its methods follow the source's operations.
  `get_raw` walks both trees with two cursors in a loop. `set_raw` builds
  its patch in a loop from the last segment outward.
- `ConfigProperties` and `ConfigScenarios` (`config_properties.dfy`): lemmas
  that relate several operations, and the write-then-read scenario of the
  basic tests replayed on the model.

The typed value `T` is abstract. A `Codec<T>` carries serde's conversions as
function values: `toValue: T -> Option<Value>` and `fromValue: Value ->
Option<T>`, where `None` is a serde error. `Config<Value>` uses
`ValueCodec()`, under which both conversions are the identity.

Four points of the code's behaviour that a reader might not expect, and
that the model keeps:

- A read of a missing path does not fail with a "path not found" error.
  Each missing segment reads as `null`, and the read deserialises `null`.
- The empty path is not rejected. `split('.')` gives one empty segment, so
  the write patches the key `""`. The "Invalid attribute string" branch can
  never be taken: `Split` always returns at least one segment.
- `replace_raw` is not all-or-nothing. It stores the new raw tree before the
  rebuild. When the rebuild fails, the new raw tree stays and only the typed
  value keeps its old state.
- A read of a dotted path does not use the merged tree. It takes the
  overlay's value at exactly that path when that value is not `null`, and
  the raw tree's value otherwise. `SelectAgreesWithMerge` states when this
  agrees with the merged tree. `SelectMissesShallowOverride` and
  `SelectMissesObjectMerge` show the two ways it can differ.

## Model

| member | source | states |
|---|---|---|
| `Json.Index` | src/config.rs:61-62 | indexing gives the member for a present key of an object, and `null` in every other case; it never fails |
| `Json.Lookup` | src/config.rs:60-63 | walks a tree one key after the other, as each cursor of the read loop does; a walk from `null` stays `null`, and a non-null result means the first key was present in an object |
| `JsonPatch.Merge` | src/config.rs:21 | the RFC 7396 merge applied to the raw tree and the overlay; its result is an object exactly when the patch is one, and then every key comes from the patch or from an object target |
| `JsonPatch.Section2` | src/config.rs:20-21 | the RFC 7396 rules: a non-object patch replaces the target; an object patch gives an object; a `null` member deletes its key; other members merge recursively into the target's value at the key (`null` when absent, `{}` for a non-object target); keys the patch does not mention keep their values |
| `JsonPatch.MergeIdempotent` | src/config.rs:101-103 | merging the same patch into the overlay twice gives the same overlay as merging it once |
| `JsonPatch.LookupMerge` | src/config.rs:20-23 | where the patch holds a non-null value at a path, the merged tree holds the merge of the target's and the patch's values at that path |
| `JsonPatch.LookupMergeUntouched` | src/config.rs:20-23 | a path the patch says nothing about reads `null` in the patch and keeps the target's value in the merged tree |
| `JsonPatch.MergeEmptyPatch` | src/config.rs:146-147 | merging the empty overlay `{}` keeps an object tree unchanged and turns any other tree into `{}` |
| `DottedPath.Split` | src/config.rs:79-82 | splitting gives at least one segment, so the "Invalid attribute string" error is unreachable; no segment contains a dot |
| `DottedPath.JoinSplit` | src/config.rs:79 | joining the segments with `.` gives back the path |
| `DottedPath.SplitJoin` | src/config.rs:79 | dot-free segments, joined and split again, are the same segments |
| `DottedPath.Nested` | src/config.rs:83-87 | the patch for a non-empty path is an object with the first segment as its only key, and the patch holds the leaf at the path |
| `DottedPath.MergeNestedElsewhere` | src/config.rs:83-88 | merging the patch for one path leaves every path that parts from it with its old value |
| `DottedPath.MergeNestedNull` | src/config.rs:83-88 | merging the patch for a `null` leaf deletes the value at its path |
| `Config.ValueCodec` | src/config.rs:126-129 | for `Config<Value>`, serialisation and deserialisation are the identity and never fail |
| `Config.Decode` | src/config.rs:71-72 | a read succeeds exactly when the picked tree deserialises, with that value; otherwise it fails with a deserialisation error |
| `Config.Select` | src/config.rs:65-69 | the tree a dotted-path read picks: the overlay's value at the path whenever that is not `null`, otherwise the raw tree's; it is `null` exactly when both are |
| `Config.BuildPatch` | src/config.rs:79-87 | the loop that wraps the leaf from the last segment outward produces exactly the nested patch of the split path, and it is an object |
| `Config.Config.WithRawAndBuilt` | src/config.rs:146-155 | a new container holds the given tree and typed value, with the empty overlay `{}` |
| `Config.Config.NewWith` | src/config.rs:136-139 | succeeds exactly when the typed value serialises; the raw tree is its serialisation, the typed value is kept as given, the overlay is `{}`; otherwise a serialisation error |
| `Config.Config.NewWithRaw` | src/config.rs:141-144 | succeeds exactly when the tree deserialises; the typed value is that result, the raw tree is kept, the overlay is `{}`; otherwise a deserialisation error |
| `Config.Config.Rebuild` | src/config.rs:19-25 | only the typed value may change; when the overlay merged onto the raw tree deserialises, it becomes the typed value and the rebuild succeeds; otherwise it fails and the typed value is unchanged |
| `Config.Config.Get` | src/config.rs:91-93 | returns the current typed value |
| `Config.Config.MergeOverlay` | src/config.rs:95-106 | the overlay becomes the patch merged onto the old overlay, even when the rebuild that follows fails, and is an object exactly when the patch is; the raw tree is unchanged; the typed value follows the rebuild rule |
| `Config.Config.GetRaw` | src/config.rs:53-73 | the result is the deserialisation of the overlay's value at the split path when that value is not `null`, and of the raw tree's value there otherwise; missing segments read as `null` |
| `Config.Config.SetRaw` | src/config.rs:75-89 | a value that does not serialise fails and changes nothing; otherwise the overlay becomes the nested patch for the split path merged onto the old overlay, stays an object, and the typed value follows the rebuild rule; the raw tree never changes |
| `Config.Config.ReplaceRaw` | src/config.rs:116-123 | the raw tree becomes the new tree even when the rebuild fails; the overlay is unchanged and stays an object if it was one; the typed value follows the rebuild rule |
| `Config.Empty` | src/config.rs:126-130 | `Config<Value>` whose typed value, raw tree and overlay are all `{}` |
| `ConfigProperties.EmptyPathPatch` | src/config.rs:79-83 | the empty path splits into one empty segment, and its patch is `{"": leaf}` |
| `ConfigProperties.SetThenGet` | src/tests/test_basics.rs:21-23 | after a write, a read of the same path gives the written non-null scalar or array back; an object reads as merged onto the old override; `null` makes the read fall back to the raw tree |
| `ConfigProperties.SetRawElsewhere` | src/config.rs:83-88 | a write does not change the read of any path that parts from the written one |
| `ConfigProperties.OverrideSurvivesReload` | src/config.rs:116-123 | a scalar or array override stays in the merged tree the typed value is built from, whatever raw tree a later replacement brings |
| `ConfigProperties.SelectAgreesWithMerge` | src/config.rs:57-69 | a read agrees with the merged tree when the overlay holds a non-null scalar or array exactly at the path, or says nothing about the path |
| `ConfigProperties.SelectMissesShallowOverride` | src/config.rs:60-69 | a scalar override at a key removes every deeper path from the merged tree, yet a read of a deeper path still finds the raw tree's value |
| `ConfigProperties.SelectMissesObjectMerge` | src/config.rs:65-69 | for every object override at a key over a raw object at that key, the read gives the override as it stands, while the merged tree merges the two, so a raw key the override lacks is in the merged tree and not in the read |
| `ConfigProperties.RebuildAfterConstruction` | src/config.rs:141-147 | with the overlay `{}` set at construction, a rebuild deserialises the raw tree itself when it is an object, and `{}` otherwise |

## Left out

- The `Arc<RwLock<…>>` sharing, `Clone` and the read and write guards (`src/config.rs:28-38`, `src/config.rs:91-114`) exist for concurrency. The model is one object changed one call at a time, and `Get` returns the typed value itself.
- `load_json_file`, `load_yaml_file` and `load_default` (`src/config.rs:44-50`, `src/config.rs:166-168`) only build a loader. The loader (`src/config_loader.rs`), the layers (`src/layer.rs`: files, YAML and JSON parsing, HTTP fetching) and the watch-and-reload loop are I/O, threads and timers, and are not part of this model. Without the loader, the left-to-right precedence of layers is not modelled either.
- `new_with_default` (`src/config.rs:162-164`) is `NewWith` applied to `T`'s default value. The model has no default for an abstract `T`.
- serde itself is abstract: `Codec` stands for the conversions of `T`, and `GetRaw` and `SetRaw` take the conversions of their value type as parameters.
- `replace_raw` converts its tree argument with `serde_json::to_value`. Converting a tree to a tree cannot fail, so `ReplaceRaw` takes the tree directly.
- JSON numbers are integers; floating-point numbers are not modelled. Object keys are unordered, as a map.
