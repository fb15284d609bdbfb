# glance store facade and lichbd shell layer, in Dafny

This project models two pieces of the `glance_store` repository and proves
properties of them.

The **store facade** (`glance/store/__init__.py`) has four parts:

- It builds the process-wide scheme map from the configured store drivers (`create_stores`).
- It resolves a scheme or a URI to a registered store.
- It forwards `get`, `get_size`, `delete`, `add` and `set_acls` to the store's driver. A driver's `NotImplementedError` becomes a typed "not supported" error; `set_acls` swallows it instead.
- It wraps deletion, location validation and image sizing as best-effort helpers, and it validates the metadata tree a driver returns from `add`.

The **lichbd shell layer** (`glance_store/lichbd.py`) runs shell commands.

- `call` raises `ShellError` on a non-zero exit.
- `call_try` retries a command up to ten times and sleeps after every failed attempt.
- The volume operations sit on top of these as policies. `mkdir`, `create_raw` and `unlink` each treat one `errno` as benign. `copy` makes up to five rounds and cleans up after each failed one. `file_size` and `cluster_stat` read the final output.

Modules:

| file | module | what it holds |
|---|---|---|
| wrappers.dfy | `Wrappers` | `Option`, and `Result` with `:-` support |
| text.dfy | `Text` | the Python string operations the code relies on: `find`, slicing with negative bounds, `strip`/`lstrip`, `'%d' % n`, `long()` |
| errors.dfy | `Errors` | the error kinds; `BackendException` carries a structured fault instead of a message |
| metadata.dfy | `Metadata` | `check_location_metadata` over a dict/list/text tree |
| registry.dfy | `Registry` | `create_stores`, `get_known_schemes`, `get_store_from_scheme`, `get_store_from_uri` |
| dispatch.dfy | `Dispatch` | the backend dispatch and its error translation, `store_add_to_backend`, the deletion and location helpers, `_set_image_size` |
| shell.dfy | `Shell` | `ShellCmd.__call__`, `call`, `call_try`, `raise_exp` |
| lichbd.dfy | `Lichbd` | `lichbd_mkdir`, `lichbd_create_raw`, `lichbd_copy`, `lichbd_unlink`, `lichbd_file_size`, `lichbd_cluster_stat` |

External effects become parameters:

- The driver loader is a function from store name to `Loaded(store) | BadConfiguration`.
- The location module's parser is a function from URI to `Result<Location, Error>`.
- Store drivers are a record of functions that return `Result`. `Err(NotImplemented)` stands for a driver's `NotImplementedError`.
- The shell is an oracle. It maps the trace so far and a command to an exit code, stdout and stderr.
- Every shell operation returns its trace of `Ran(process)` and `Slept` events. The properties about attempts, sleeps and cleanup commands are stated over that trace.
- The scheme map is passed in and returned instead of being a module global.
- `delayed_delete` is a boolean parameter.

The metadata walk does not accumulate a key path through dicts. A dict's entries are checked under their own keys, whatever path led to the dict. The `key[i]` form therefore survives only directly below a list. `ListOfDictsLosesIndex` shows that a bad leaf in a dict inside a list is reported under the inner key alone.

`lichbd_copy` cleans up after every failed round, including the fifth. It therefore runs five cleanups before it gives up. `lichbd_file_size` and `lichbd_cluster_stat` go through `call_try`, so they too make up to ten attempts.

## Model

| member | source | states |
|---|---|---|
| Text.Slice | glance/store/__init__.py:226 | Python's `s[start:stop]`: in-range bounds give `s[start..stop]`, a stop past the end is clamped to the end, a bound below `-len(s)` is clamped to the start, any other negative bound, start or stop, counts from the end, and a start at or past the end, a stop at or below `-len(s)`, or crossed bounds give the empty string |
| Text.ParseIntOfIntToString | glance_store/lichbd.py:120-121 | a decimal rendering of any integer, parsed back by `long()`, gives that integer |
| Text.ParseIntSpacedSign | glance_store/lichbd.py:121 | Python 2's `long()` reads a sign, any whitespace after it, the digits and an optional `L`/`l` suffix: `[sign] + blanks + digits + suffix` reads as the signed value |
| Text.StripPadded | glance_store/lichbd.py:120 | `strip()` removes exactly the ASCII whitespace around text that has none at its ends |
| Registry.Distinct | glance/store/__init__.py:163 | each configured name appears once: same members, no duplicates, never longer |
| Registry.Register | glance/store/__init__.py:180-187 | every scheme of the store now maps to that store and its location class; other entries are unchanged |
| Registry.PopulateCounts | glance/store/__init__.py:160-190 | the pass succeeds iff no loaded store reports an empty scheme set, and then counts exactly the stores that loaded; otherwise it fails with a `BackendException` naming a store with no schemes |
| Registry.PopulateKeepsUnclaimed | glance/store/__init__.py:163-171 | a scheme no loaded store claims keeps its earlier entry, or stays absent; names that fail to load change nothing |
| Registry.PopulateLastClaimWins | glance/store/__init__.py:180-187 | after a successful pass, a scheme maps to the last store that claims it |
| Registry.CreateStores | glance/store/__init__.py:155-190 | distinct names are loaded once; the count equals the number of loaded stores and is at most the number of distinct names; success iff no configured store that loads has an empty scheme set, and otherwise the error names such a store |
| Registry.CreateStoresKnownSchemes | glance/store/__init__.py:203-205 | after `create_stores`, the known schemes are exactly the earlier ones plus every scheme a configured store reports |
| Registry.CreateStoresLookup | glance/store/__init__.py:208-216 | looking up a scheme in the built registry returns its last claimant |
| Registry.StoreFromScheme | glance/store/__init__.py:208-216 | `UnknownScheme(scheme)` exactly when the scheme is unregistered; otherwise the registered store |
| Registry.SchemeOfSchemeUri | glance/store/__init__.py:219-227 | for a URI `s:/rest` with no `/` in `s`, exactly `s` is looked up |
| Registry.SchemeOfUriWithoutSlash | glance/store/__init__.py:226 | a URI with no `/` loses its last two characters |
| Metadata.Check | glance/store/__init__.py:309-321 | succeeds iff every leaf of the tree is text; a failure is always an invalid-leaf `BackendException` |
| Metadata.CheckEntries | glance/store/__init__.py:310-312 | the dict loop succeeds iff every remaining value is all text |
| Metadata.CheckItems | glance/store/__init__.py:313-317 | the list loop succeeds iff every remaining element is all text |
| Metadata.CheckListReportsIndex | glance/store/__init__.py:313-317 | a list under `key` reports its first bad element as checked under `key[i]` |
| Metadata.CheckListLeafPath | glance/store/__init__.py:313-321 | a non-text leaf at list index `i` under `key` is reported with key path `key[i]` and its type |
| Metadata.CheckDictReportsOwnKey | glance/store/__init__.py:310-312 | a dict reports its first bad entry as checked under that entry's own key, whatever key led to the dict |
| Metadata.ListOfDictsLosesIndex | glance/store/__init__.py:309-317 | a bad leaf in a dict inside a list under `outer` is reported under the inner key alone |
| Dispatch.Get | glance/store/__init__.py:230-239 | a parse error propagates; an unknown scheme (from the URI slice) is `UnknownScheme`; a driver's `NotImplementedError` becomes `StoreGetNotSupported`; every other driver result passes unchanged |
| Dispatch.GetSize | glance/store/__init__.py:242-248 | a location that does not parse, or whose scheme has no store, is that error; otherwise the driver's answer for the parsed location, with no translation |
| Dispatch.LookupsAgree | glance/store/__init__.py:230-259 | get, get-size and delete report the same error for a location they cannot resolve, and get-size of a resolved location is the driver's answer for it |
| Dispatch.Delete | glance/store/__init__.py:251-259 | as `Get`, with `NotImplementedError` becoming `StoreDeleteNotSupported` |
| Dispatch.SafeDelete | glance/store/__init__.py:274-287 | succeeds iff the deletion succeeds or fails with `NotFound`, `StoreDeleteNotSupported` or `UnsupportedBackend`; any other error propagates unchanged |
| Dispatch.DeleteImage | glance/store/__init__.py:302-306 | with delayed delete, one deletion is queued and nothing else happens; without it, nothing is queued and the result is the safe deletion's |
| Dispatch.StoreAdd | glance/store/__init__.py:324-354 | a driver error propagates. Success iff the metadata is absent or an all-text dict, and then the driver's tuple is returned unchanged. Non-dict metadata is a `BackendException` naming the store. A dict with a bad leaf is a `BackendException` whose cause is the walk's own error |
| Dispatch.Add | glance/store/__init__.py:357-362 | `UnknownScheme` for an unregistered scheme; a driver's `NotImplementedError` becomes `StoreAddNotSupported`; otherwise the result of `store_add_to_backend`; never a bare `NotImplementedError` |
| Dispatch.SetAcls | glance/store/__init__.py:365-374 | the store is found through the parsed location's store name; a driver's `NotImplementedError` is swallowed; every other result passes unchanged |
| Dispatch.CheckLocationUri | glance/store/__init__.py:376-392 | valid iff the size query succeeds with a positive size; a non-positive size, `UnknownScheme` or `NotFound` becomes `BadStoreUri(uri)`; other errors propagate |
| Dispatch.CheckImageLocation | glance/store/__init__.py:395-397 | valid iff the URI is valid and the metadata is all text; a URI error takes precedence |
| Dispatch.SetImageSize | glance/store/__init__.py:400-408 | a size already set is kept without querying; a changed size is non-zero and is what some location reported |
| Dispatch.SetImageSizeFirstAnswer | glance/store/__init__.py:400-408 | with the size unset, the first location that errors or answers non-zero, after only zeros, decides the result; later locations do not matter |
| Dispatch.SetImageSizeAllZero | glance/store/__init__.py:400-408 | when every location reports zero, the size stays as it was |
| Shell.Run | glance_store/lichbd.py:30-31 | a run records the command it ran, and its exit code, stdout and stderr are exactly what the shell yields for that command after the trace so far |
| Shell.Call | glance_store/lichbd.py:30-44 | one process runs, as the shell yields it. It raises iff exceptions are on and the exit code is non-zero, with the `raise_exp` message; otherwise it returns stdout |
| Shell.ErrorMessageCommandLine | glance_store/lichbd.py:66-72 | for a one-line command, the `ShellError` message's first line is the command label and the command, and the rest is the code line followed by the outputs |
| Shell.ErrorMessageCodeLine | glance_store/lichbd.py:69-72 | the message's second line parses back to the exit code, and what follows it is stdout and stderr verbatim |
| Shell.AttemptsRetried | glance_store/lichbd.py:56-61 | `n` attempts leave at most `n` processes, all of `cmd`. All but the last failed, and stopping early means the last succeeded. One sleep follows each failure and nothing else. Each process is what the shell yields after the trace before it |
| Shell.CallTry | glance_store/lichbd.py:51-63 | at most `try_num` attempts, ten by default. No process and no events iff the bound is not positive; otherwise the last process is returned. Failures are followed by sleeps, and an early stop is a success |
| Shell.AttemptsSleeps | glance_store/lichbd.py:56-61 | the attempts sleep exactly as often as a process failed |
| Shell.AttemptsPersistentFailure | glance_store/lichbd.py:56-61 | a command that always exits with the same non-zero code runs all `n` times, with `n` sleeps |
| Shell.ExhaustedAttempts | glance_store/lichbd.py:56-63 | attempts that end with a failure used the whole bound, and every one of them failed |
| Lichbd.TryTen | glance_store/lichbd.py:51-63 | `call_try` with the default bound: one to ten runs of the command, each what the shell yields, all but the last failed, fewer than ten runs means the last succeeded, one sleep after each failure and none elsewhere; the last process is returned |
| Lichbd.TryTenFirstSucceeds | glance_store/lichbd.py:56-59 | when the first attempt exits 0, that one run is all that happens and it is returned |
| Lichbd.TryTenPersistentFailure | glance_store/lichbd.py:51-63 | when every attempt fails with the same code, ten runs and ten sleeps happen and the tenth run is returned |
| Lichbd.Tolerant | glance_store/lichbd.py:77-83 | the `call_try` guarantees of `TryTen` for the command, then success iff the final exit code is 0 or the benign code; otherwise the `raise_exp` error of the final process |
| Lichbd.TolerantFirstSucceeds | glance_store/lichbd.py:77-83 | a command that exits 0 at once runs once, never sleeps, and succeeds |
| Lichbd.TolerantPersistentFailure | glance_store/lichbd.py:77-83 | a command that keeps failing with one code runs ten times with ten sleeps, and succeeds iff that code is the benign one |
| Lichbd.Mkdir | glance_store/lichbd.py:77-83 | the `call_try` guarantees for `lich --mkdir path` (one to ten runs from the shell, all but the last failed, early stop means success, a sleep after each failure); success iff the final exit code is 0 or `EEXIST` (17); otherwise `ShellError` from the final process |
| Lichbd.MkdirExisting | glance_store/lichbd.py:77-83 | a directory that already exists costs ten runs and ten sleeps, then counts as made |
| Lichbd.MkdirFirstSucceeds | glance_store/lichbd.py:77-83 | a mkdir that exits 0 at once runs once, never sleeps, and succeeds |
| Lichbd.CreateRaw | glance_store/lichbd.py:85-91 | as `Mkdir`, for `qemu-img create -f raw path size`, with `EEXIST` as the benign code |
| Lichbd.CreateRawPersistentFailure | glance_store/lichbd.py:85-91 | a create that keeps failing with one code runs ten times with ten sleeps, and succeeds iff that code is `EEXIST` |
| Lichbd.Unlink | glance_store/lichbd.py:107-113 | the `call_try` guarantees for `lich --unlink path`; success iff the final exit code is 0 or `ENOENT` (2); otherwise `ShellError` from the final process |
| Lichbd.UnlinkMissing | glance_store/lichbd.py:107-113 | unlinking a volume that is already gone costs ten runs and ten sleeps, then succeeds |
| Lichbd.UnlinkFirstSucceeds | glance_store/lichbd.py:107-113 | an unlink that exits 0 at once runs once, never sleeps, and succeeds |
| Lichbd.Cleanup | glance_store/lichbd.py:99-103 | a `:`-prefixed destination is removed by exactly one run of `rm -rf` on the path without its leading colons, which fails iff it exits non-zero; any other destination gets the unlink policy: the `call_try` guarantees for `lich --unlink`, success iff the final code is 0 or `ENOENT` |
| Lichbd.CleanupUnlinks | glance_store/lichbd.py:102-103 | the cleanup of a destination that is not local is exactly `lichbd_unlink` of it |
| Lichbd.CopyRound | glance_store/lichbd.py:95-103 | a round is one `call_try` of the copy command with the `TryTen` guarantees, then the cleanup of the destination after those events exactly when the copy failed |
| Lichbd.FailedRoundRanTen | glance_store/lichbd.py:96-99 | a round whose copy failed ran the copy command all ten times, with ten sleeps |
| Lichbd.CopyFrom | glance_store/lichbd.py:93-105 | from round `k`, at most `5 - k` rounds run. Round `i` is a well-formed round after the events of the rounds before it, so each has the `call_try` guarantees. Every round but the last failed and cleaned up successfully. The result is the first successful copy process, or the first cleanup error, or after the final round the `raise_exp` error of the last copy process |
| Lichbd.Copy | glance_store/lichbd.py:93-105 | at most five rounds, each well-formed after the rounds before it (so each has the `call_try` guarantees), every round but the last failed and cleaned up, and the whole trace is consistent with the shell. The result is the first successful copy process, or the first cleanup error, or after five failed rounds the `raise_exp` error of the fifth round's last copy process |
| Lichbd.CopyExhausted | glance_store/lichbd.py:95-105 | a copy that fails without its last cleanup failing ran exactly five rounds, each with ten copy runs and ten sleeps and then a cleanup, and raises from the fifth round's last copy process |
| Lichbd.AllRoundsFailed | glance_store/lichbd.py:95-103 | when every round failed, every round was followed by a cleanup and each ran the copy command ten times with ten sleeps |
| Lichbd.ReadSize | glance_store/lichbd.py:117-121 | a non-zero exit is a `ShellError`; otherwise the stripped stdout parsed as an integer, or `ValueError` when it does not parse |
| Lichbd.ReadSizeDecimal | glance_store/lichbd.py:117-121 | a stat that printed a size in decimal, padded with whitespace, yields exactly that size |
| Lichbd.FileSize | glance_store/lichbd.py:115-121 | the `call_try` guarantees for the stat pipeline; the result is what the final process reads as |
| Lichbd.ClusterStat | glance_store/lichbd.py:123-128 | the `call_try` guarantees for `lich.cluster --stat`; stdout verbatim iff the final exit code is 0; otherwise `ShellError` from the final process |
| Lichbd.ClusterStatFirstSucceeds | glance_store/lichbd.py:123-128 | a status query that exits 0 at once runs once, never sleeps, and returns that run's stdout |
| Lichbd.ClusterStatPersistentFailure | glance_store/lichbd.py:123-128 | a status query that keeps failing runs ten times with ten sleeps and raises from the tenth run |

## Left out

- Option declarations and `register_opts` (glance/store/__init__.py:34-75) are configuration plumbing. `delayed_delete` and the configured store list are parameters.
- `_load_store` (glance/store/__init__.py:142-152) loads drivers through stevedore, a foreign library. It is replaced by a loader parameter. Loader failures other than `BadStoreConfiguration`, such as `DriverLoadFailure`, are not modelled.
- Registry.CreateStores: Python's `set()` iteration order is unspecified. The model visits the distinct names in first-occurrence order. Which store wins a contested scheme is stated relative to that order.
- `Indexable` (glance/store/__init__.py:78-139) is a stream adapter over sockets, so it is I/O plumbing.
- The location module is not part of this model:
  - `get_location_from_uri` is an abstract parser parameter;
  - `register_scheme_map` is a map update in which later entries overwrite earlier ones;
  - `get_store_from_location` (glance/store/__init__.py:262-271) is the parsed location's store name.
- `schedule_delayed_delete_from_backend` (glance/store/__init__.py:290-299) writes to the scrubber's external file queue. It is modelled as a queued `(image_id, uri)` record.
- `verify_default_store` (glance/store/__init__.py:193-200) depends on `glance.context`, whose import is commented out.
- Calls whose arity does not match get the intended semantics. These are `get_store_from_scheme(context, scheme)` at glance/store/__init__.py:358 and `get_store_from_scheme(context, scheme, loc)` at line 369. Both are modelled as the one-argument lookup.
- `BackendException`, `DriverLoadFailure` and `UnsupportedBackend` are never imported. They are modelled as the exceptions they evidently mean.
- Registry.CreateStores: the no-schemes error at glance/store/__init__.py:174-176 cannot run as written. `BackendException` is never imported, and `store_cls` is bound only inside `_load_store` (line 143), so it is unbound in `create_stores`. Either name raises `NameError`, the former first. The model raises the `BackendException` and names the store, as evidently intended.
- Messages of `BackendException` are structured faults, not text. Logging is left out.
- `subprocess.Popen`/`communicate`, `workdir`, `pipe` and the one-second `time.sleep` are replaced by the shell oracle and `Slept` events. `call_timeout` is an empty stub.
- `call_try` accepts an `exception` argument and ignores it, so the model has none.
- Text.ParseInt: it reads text that is already stripped, because the source only ever calls `long()` on `size.strip()` (glance_store/lichbd.py:120-121). So `long()`'s own skipping of outer whitespace is not repeated.
- Dispatch.SetImageSize: glance/store/__init__.py:403 calls `glance.store.get_size_from_backend`, but the name `glance` is never bound in that module (its `import glance.context` at line 23 is commented out), so the code as written raises `NameError` on an unset size. The model calls `get_size_from_backend` as evidently intended.
- Dispatch.SetImageSize: the mutation `image.size = ...` is modelled as returning the new size, with `None` or `0` as the unset size.
- Dispatch.DeleteImage: the queued deletion is a record in the result, not a scrubber call.
