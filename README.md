# PermissionManager of the Convenience library, modelled in Dafny

The model covers the Android runtime-permission helper `PermissionManager` and its result record `RequestResult`.

`PermissionManager` keeps three fields:

- `enabled` is a kill switch.
- `waitingForResponse` is set while a request is outstanding.
- `onRequestListener` is a single slot for the pending request listener.

It offers four operations:

- `check` splits permissions into allowed and blocked by asking the host activity for each one.
- `request` stores the listener and asks the host to show its permission dialog.
- `requestIfNeeded` checks first, then requests only the blocked permissions.
- `onRequestPermissionsResult` is the host's asynchronous answer. It splits the answered permissions by their result codes and hands that split to the pending listener.

Files:

- `results.dfy` (module `Results`): `CheckResult` and `RequestResult` as immutable datatypes over `seq<string>`.
- `partition.dfy` (module `Partition`): the order-preserving split both loops perform. `Keep(ps, codes, granted)` is the specification function for it. Beside it is the index-level reference `Positions` and the lemmas that the split covers its input (lengths and multisets), preserves order, and is disjoint.
- `permission_manager.dfy` (module `PermissionManagers`): the class `PermissionManager` with its fields and methods. It also holds the two loops as methods proved against `Keep` (`CheckStatuses`, `SplitResults`) and three client methods that state what callers observe.
- `scenarios.dfy` (module `PermissionScenarios`): a concrete scenario. The host grants only A; A, B and C are checked, B and C are requested, and the user grants B and denies C.
- `nullable.dfy` (module `Nullable`): `Option`, which stands for a Java reference that may be null.

How the host and the callbacks are represented:

- `activity.checkSelfPermission` is a function `status: Permission -> int`.
- Each `activity.requestPermissions` call is appended to the field `hostRequests`.
- Listener objects are numbers (`ListenerId`). Every invocation of a caller's listener is appended to the field `deliveries`.
- The listener that `requestIfNeeded` creates is the value `Forwarder(target, checkAllowed)`. It records the caller's listener, which may be null, and the allowed list of the check that the anonymous class captures.
- `PERMISSION_GRANTED` is 0 and `PERMISSION_DENIED` is -1, as on the Android platform. `REQUEST_CODE` is `Integer.MAX_VALUE` (2147483647).

Two details of the code that a reader might expect to be otherwise:

- **No merging in `requestIfNeeded`.** The wrapper listener appends the request's allowed permissions to the allowed list captured from the check (PermissionManager.java lines 133-141), but then discards that merged list. It delivers `new RequestResult(result.getAllowedPermissions(), result.getBlockedPermissions())` (lines 144-147), which is the request's own split only. `Invoke` builds the merged list as a ghost value that nothing uses. `ForwarderPassesResultThrough`, `RequestIfNeededThenRespond` and `PermissionScenarios.GrantOnlyA` state what is actually delivered: for the A/B/C scenario, `[B]` allowed and `[C]` blocked, not `[A, B]`.
- **Lengths of the parallel arrays.** The code reads `results[i]` for `i < permissions.length` only on the path that reaches the loop (lines 181-191): the request code is the manager's and a listener is pending. Only there does it need `results.length >= permissions.length`, and only there is that the model's precondition. A foreign code or a missing listener returns false without reading `results`, whatever its length.

## Model

| member | source | states |
|---|---|---|
| `Results.RequestResultGetters` | convenience/src/main/java/com/visuality/convenience/RequestResult.java:7-23 | `getAllowedPermissions` and `getBlockedPermissions` return exactly the first and second constructor arguments |
| `Results.RequestResultAcceptsAnyPair` | convenience/src/main/java/com/visuality/convenience/RequestResult.java:17-23 | the constructor accepts any pair, overlapping or not, unchanged; a result is determined by its two fields, and there is no setter |
| `Partition.Keep` | convenience/src/main/java/com/visuality/convenience/PermissionManager.java:48-57 | one side of the split is never longer than the input |
| `Partition.KeepSnoc` | convenience/src/main/java/com/visuality/convenience/PermissionManager.java:52-56 | one loop step appends the current permission to exactly the side its code selects, and leaves the other side as it was |
| `Partition.KeepLengths` | convenience/src/main/java/com/visuality/convenience/PermissionManager.java:45-68 | the allowed and blocked lists together are exactly as long as the input |
| `Partition.KeepCovers` | convenience/src/main/java/com/visuality/convenience/PermissionManager.java:48-57 | the two lists together hold each input permission exactly as many times as the input does (coverage, nothing invented) |
| `Partition.Positions` | convenience/src/main/java/com/visuality/convenience/PermissionManager.java:181-191 | the indices whose result code selects a side, strictly increasing, each matching, and none missing |
| `Partition.KeepPrefixAtPositions` | convenience/src/main/java/com/visuality/convenience/PermissionManager.java:181-191 | after the first `n` iterations each list is the input read at the matching indices below `n`, in order |
| `Partition.KeepAtPositions` | convenience/src/main/java/com/visuality/convenience/PermissionManager.java:181-191 | order preservation: each list is the input read, in increasing index order, at exactly the indices whose code selects it |
| `Partition.KeepMember` | convenience/src/main/java/com/visuality/convenience/PermissionManager.java:181-191 | a permission is on a side if and only if some index holding it has a code for that side |
| `Partition.CheckedSplit` | convenience/src/main/java/com/visuality/convenience/PermissionManager.java:48-57 | `check` puts a permission among the allowed if and only if it was queried and the host reports it granted, and among the blocked if and only if it was queried and is not granted |
| `Partition.CheckedDisjoint` | convenience/src/main/java/com/visuality/convenience/PermissionManager.java:45-68 | no permission lands on both sides of a check |
| `Partition.ResponseDisjoint` | convenience/src/main/java/com/visuality/convenience/PermissionManager.java:178-202 | the two sides of a response are disjoint when the host lists each permission at most once |
| `Partition.ResponseOverlapsOnDuplicates` | convenience/src/main/java/com/visuality/convenience/PermissionManager.java:181-191 | the response split works index by index, so a permission listed twice with different codes is reported on both sides |
| `PermissionManagers.ForwarderPassesResultThrough` | convenience/src/main/java/com/visuality/convenience/PermissionManager.java:130-155 | the wrapper from `requestIfNeeded` passes the request's own result to the caller unchanged (nothing if the caller's listener is null) and ignores the allowed list it captured |
| `PermissionManagers.CheckStatuses` | convenience/src/main/java/com/visuality/convenience/PermissionManager.java:45-68 | the loop of `check` computes the order-preserving split by the host's status |
| `PermissionManagers.SplitResults` | convenience/src/main/java/com/visuality/convenience/PermissionManager.java:178-202 | the loop of `onRequestPermissionsResult` computes the order-preserving split of `permissions[i]` by `results[i] == GRANTED` |
| `PermissionManagers.PermissionManager.constructor` | convenience/src/main/java/com/visuality/convenience/PermissionManager.java:31-34 | a new manager is enabled and not waiting, has no pending listener, and has made no host request and no delivery |
| `PermissionManagers.PermissionManager.IsWaitingForResponse` | convenience/src/main/java/com/visuality/convenience/PermissionManager.java:17-19 | reports the waiting flag |
| `PermissionManagers.PermissionManager.IsEnabled` | convenience/src/main/java/com/visuality/convenience/PermissionManager.java:23-25 | reports the kill switch |
| `PermissionManagers.PermissionManager.SetEnabled` | convenience/src/main/java/com/visuality/convenience/PermissionManager.java:27-29 | sets the kill switch and nothing else |
| `PermissionManagers.PermissionManager.Check` | convenience/src/main/java/com/visuality/convenience/PermissionManager.java:36-75 | when disabled nothing happens; otherwise the listener, if not null, gets the split exactly once; the state fields never change |
| `PermissionManagers.PermissionManager.Request` | convenience/src/main/java/com/visuality/convenience/PermissionManager.java:77-92 | when disabled nothing changes; otherwise the listener silently replaces the pending one, exactly one host request with the given permissions and `REQUEST_CODE` is made, and the manager waits |
| `PermissionManagers.PermissionManager.RequestIfNeeded` | convenience/src/main/java/com/visuality/convenience/PermissionManager.java:94-161 | when disabled nothing changes; if nothing is blocked, the caller gets the check's lists at once and the host is not asked; otherwise exactly one host request asks for the blocked permissions in order, and a wrapper around the caller's listener is left pending |
| `PermissionManagers.PermissionManager.OnRequestPermissionsResult` | convenience/src/main/java/com/visuality/convenience/PermissionManager.java:163-210 | a foreign code returns false and changes nothing; the manager's code ends the wait, clears the listener, and returns whether one was pending; a pending listener is invoked once with the response's split |
| `PermissionManagers.PermissionManager.Invoke` | convenience/src/main/java/com/visuality/convenience/PermissionManager.java:130-155 | invoking a pending listener adds exactly the deliveries `Notified` describes: the result to a caller's listener, or the forwarded result through a wrapper |
| `PermissionManagers.RequestIfNeededThenRespond` | convenience/src/main/java/com/visuality/convenience/PermissionManager.java:103-160 | on a fresh manager: if all are granted, the caller gets the check's allowed list and no host request is made; otherwise there is one host request for the blocked permissions, and the caller then gets the response's own split of them, not merged |
| `PermissionManagers.ForeignCodeIgnored` | convenience/src/main/java/com/visuality/convenience/PermissionManager.java:163-170 | after a `request`, a response under another request code returns false and leaves the wait, the pending listener and the deliveries as they were, whatever the arrays hold |
| `PermissionManagers.DisabledIgnoresCalls` | convenience/src/main/java/com/visuality/convenience/PermissionManager.java:36-101 | a disabled manager makes no delivery and no host request on `check`, `request` or `requestIfNeeded`, and stays not waiting with no pending listener |
| `PermissionScenarios.GrantOnlyA` | convenience/src/main/java/com/visuality/convenience/PermissionManager.java:103-209 | with A granted, checking A, B, C gives `[A]` and `[B, C]`; `requestIfNeeded` asks for `[B, C]` only; when B is granted and C denied, the caller receives `[B]` and `[C]` |

## Left out

- The Android `Activity`, `PackageManager` and the system permission dialog are not modelled. They are replaced by the status function and the host-request log, because their behaviour is outside this code.
- Listeners are not real callbacks. They are numbers, plus the `Forwarder` value for the one anonymous listener class that `requestIfNeeded` creates. Re-entrant listener code, where a listener calls back into the manager, is not modelled.
- `requestIfNeeded` is modelled as running its anonymous check listener directly. In Java it passes that listener to `check`, which invokes it exactly once, because the manager was just found enabled and the listener is not null.
- The merged allowed list in `requestIfNeeded` is kept only as an unused ghost value in `Invoke`. The code computes it and then discards it, so nobody can observe it.
- Null `permissions` or `results` arrays are not modelled; the model takes sequences. A `results` array shorter than `permissions` makes the Java loop throw once it is reached (a matching code with a pending listener); on that path alone the model requires `results` to be at least as long.
- Threads, host-thread affinity and concurrent outstanding requests are not modelled. The code assumes a single thread. Last-writer-wins on the pending listener is an ordinary field assignment.
- Java array aliasing between a `RequestResult` and its creator is not modelled. Results hold immutable sequences.
- The source of `CheckResult.java` is not part of this model. `CheckResult` is given the same two-field shape as `RequestResult`.
