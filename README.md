# Kodman and Kocker run/delete logic, in Dafny

Kodman runs docker-run-style commands as short-lived Kubernetes pods. Its
backend (`src/kodman/backend.py`) names a pod after a hash of the run
options, creates a pod whose single container idles in a shell loop, waits
until the pod is no longer "Pending", copies each `-v src[:dst]` volume into
the pod by streaming a tar archive into `tar xvf - -C /`, executes the user's
command over an exec channel while relaying its output, and keeps the
channel's exit code in `return_code`. `delete` reads the pod, deletes it and
polls until the API answers 404. Kocker (`src/kocker/backend.py`) is the older
backend with the same pod, readiness wait and delete loop, but no volumes, no
grace period, no exit code and an unfiltered hash. The engine
(`src/kodman/engine.py`) converts environment variables to typed values,
records them in two registries shared by every engine, builds the help
epilog from them, and dispatches to the chosen subcommand.

The cluster is a finite script of answers: a `RunScript` gives the answer to
the create call, the successive answers to `read_namespaced_pod` (a pod with
or without a status, an object of another type, or an `ApiException` with
its HTTP status), and the successive answers to `stream(...)` (an exec
channel that stays open for a list of frames and then closes with a return
code, or an `ApiException`). What a backend does is recorded as a trace of
effects: pod creation, reads, deletes, channel opens, updates, stdin writes,
closes, sleeps and prints. A loop that would poll forever ends, in the model,
with `OutOfScript` (run) or `Unconfirmed` (delete) when the script has no
further answer. Each loop of the source is a Dafny method whose `ensures`
equates its results with a recursive specification function; the lemmas
state the properties of those functions.

The host is explicit too: `time.time()` is a number, CPython's tuple hash
is a function from the hashed items to an integer, and `Path.resolve()` and
`Path.is_dir()` are functions on paths. Python's builtin `hash()` reduces a
`__hash__` result outside the 64-bit range modulo 2^61 - 1 (and maps -1 to
-2), so the number in a pod name is not always `__hash__`'s own value; the
model writes that reduction out (`Naming.BuiltinHash`). The shift by
`sys.maxsize + 1` keeps the suffix non-negative, but two different tuple
hashes can yield the same suffix (`Naming.PodSuffixCollision`).

The model follows the code in the places where the code's behaviour is
easy to misread: `delete` swallows every `ApiException`, including a non-404
one during polling and a 404 on the first existence read (then no delete
call is made); kocker's `run` never deletes the pod whatever `rm` is; kocker
prints the channel output without trimming; the readiness wait lets an API
error escape; and an object of another type read while polling for deletion
ends the loop when it is falsy.

## Model

| member | source | states |
|---|---|---|
| Naming.BuiltinHash | src/kodman/backend.py:120 | `hash(options)` lies in the 64-bit hash range and is never -1; it equals `__hash__`'s value when that is in range and not -1, it is that value modulo 2^61 - 1 when the value exceeds `sys.maxsize`, and -1 becomes -2 |
| Naming.PodSuffix | src/kodman/backend.py:40-42 | for any tuple hash in [-(maxsize+1), maxsize] the number in the pod name is in [0, maxsize]; a negative tuple hash is shifted by exactly maxsize+1, a non-negative one h becomes (h + 4) modulo 2^61 - 1 |
| Naming.PodName | src/kodman/backend.py:120 | the pod name is the prefix followed by a non-empty string of decimal digits |
| Naming.PodNameDistinct | src/kocker/backend.py:63 | two runs get the same pod name exactly when their shifted hashes agree |
| Naming.PodSuffixCollision | src/kodman/backend.py:40-42 | the shift is not injective: tuple hashes 0 and 4 - (maxsize+1) give the same pod name suffix |
| Kodman.KeptItemsTruthy | src/kodman/backend.py:31-38 | no falsy candidate reaches the hashed tuple and nothing is added |
| Kodman.HashTupleLeavesOutFalsy | src/kodman/backend.py:24-38 | the hashed tuple is image, command tuple, volume tuple and timestamp in that order, each left out exactly when it is falsy, lists turned into tuples |
| Kodman.ToHash | src/kodman/backend.py:31-38 | the appending loop builds exactly the filtered candidate list |
| Kodman.OptionsHash | src/kodman/backend.py:23-42 | `__hash__` is the tuple hash plus maxsize+1, non-negative whenever the tuple hash is in range |
| Kodman.PodNameFor | src/kodman/backend.py:120 | the kodman pod name is "kodman-run-" followed by decimal digits |
| Kube.IdleManifest | src/kodman/backend.py:121-141 | the manifest is a Pod with exactly one container, named "container-name", running the image through `/bin/sh -c` and the SIGTERM-trapping idle loop |
| Lifecycle.PendingPrefix | src/kodman/backend.py:147-158 | the reads before the stop are exactly the leading reads with phase "Pending" |
| Lifecycle.AwaitStopsAtFirstNonPending | src/kodman/backend.py:147-160 | the wait stops at the first read that is not exactly "Pending" (a missing or "Failed" phase included), raising ValueError for a pod without status and TypeError for a non-pod, sleeps once after each "Pending" read and reads nothing after the stop |
| Lifecycle.PollRoundsAlternate | src/kodman/backend.py:147-158 | the waiting rounds alternate one read and one one-second sleep |
| Lifecycle.AwaitOnlyReadsAndSleeps | src/kocker/backend.py:89-102 | the wait only reads the pod and sleeps; it creates and deletes nothing |
| Lifecycle.AwaitReady | src/kocker/backend.py:89-102 | the readiness loop yields the outcome and trace of the read-by-read specification |
| Lifecycle.LivePrefix | src/kodman/backend.py:220-226 | the polls that keep the confirm loop going are exactly the leading successful truthy reads |
| Lifecycle.ConfirmOnlyReadsAndSleeps | src/kodman/backend.py:220-232 | the confirm loop only reads and sleeps two seconds; it issues no further delete call |
| Lifecycle.ConfirmStopsAtFirstFailure | src/kodman/backend.py:220-232 | the confirm loop stops at the first failing or falsy poll; a 404 there confirms, another status is swallowed |
| Lifecycle.DeleteIssuedAfterExistenceRead | src/kodman/backend.py:208-218 | the delete call is issued, once and right after the read, exactly when the existence read succeeds; an already-gone pod gets no delete call |
| Lifecycle.DeleteConfirmedAtFirst404 | src/kodman/backend.py:208-235 | delete ends confirmed exactly when the read and the delete succeed and the first failing poll after live reads is a 404 |
| Lifecycle.Confirm | src/kodman/backend.py:220-232 | the polling confirms only after a 404 read, swallows only a non-404 status it read, ends unconfirmed only when every poll succeeded with a truthy response, and makes at most one read and one sleep per poll |
| Lifecycle.DeleteSpec | src/kodman/backend.py:208-235 | delete starts with the existence read; it confirms only when the delete call succeeded and a later poll was a 404; a swallowed status is the delete call's or one read from the cluster |
| Lifecycle.PollUntilGone | src/kodman/backend.py:220-232 | the `while exists_resp` loop yields the outcome and trace of the confirm specification |
| Lifecycle.DeleteAndConfirm | src/kocker/backend.py:129-155 | the delete body yields the outcome and trace of the delete specification; no `ApiException` escapes |
| Streams.StrippedRelayIsPlainRStripped | src/kodman/backend.py:196-201 | kodman's relay prints the same lines as an untrimmed relay, in the same order, each right-stripped |
| Streams.RelayOutputOrder | src/kocker/backend.py:118-123 | every round of the relay is one update followed by that update's prints, placed between the earlier and the later rounds; with both streams present stdout is printed before stderr; the relay only updates and prints |
| Streams.RelayTraceAppend | src/kocker/backend.py:118-123 | relaying two stretches of output is relaying the first, then the second |
| Streams.RelayNeverChangesPods | src/kocker/backend.py:118-125 | the exec relay creates and deletes no pod |
| Streams.PrintAvailable | src/kodman/backend.py:198-201 | one round prints one line per non-empty stream and nothing else, the stdout line first and the stderr line last |
| Streams.ExecRelay | src/kocker/backend.py:118-123 | the relay loop yields the trace of the relay specification |
| Text.Split | src/kodman/backend.py:165 | `str.split` gives at least one field and no field holds the separator |
| Text.JoinSplit | src/kodman/backend.py:165 | joining the split fields gives back the volume argument |
| Text.RStrip | src/kodman/backend.py:199 | `rstrip()` removes exactly the trailing whitespace |
| Text.ParseInt | src/kodman/engine.py:81 | `int(s)` succeeds exactly for ASCII digits with an optional sign; the value is non-positive after "-" and non-negative otherwise |
| Text.Lower | src/kodman/engine.py:73 | `lower()` keeps the length and lowers each ASCII letter |
| Text.ParseIntRoundTrip | src/kodman/engine.py:79-83 | `int(str(i)) == i` for every integer |
| Paths.ParsePath | src/kodman/backend.py:168 | a path is absolute exactly when its string starts with "/", and its parts are non-empty, not ".", and hold no "/" |
| Paths.Name | src/kodman/backend.py:59 | `.name` is the last part, or "" for a path without parts |
| Paths.NameOfParsedPath | src/kodman/backend.py:59 | the name of a parsed path is its last "/"-field when that is neither empty nor "." |
| Paths.JoinName | src/kodman/backend.py:59 | `joinpath(name)` keeps absoluteness and the existing parts and adds name as the last part; joining "" leaves the path unchanged |
| Volumes.VolumeWithoutDestination | src/kodman/backend.py:165-172 | without a ":" the destination is the resolved source, accepted only if absolute |
| Volumes.VolumeWithoutDestinationAccepted | src/kodman/backend.py:165-172 | with a host whose `resolve` yields an absolute path, as `Path.resolve()` does, a volume without ":" is always accepted and mounted at its resolved source |
| Volumes.MountAll | src/kodman/backend.py:163-180 | the volume loop, volume by volume in list order; it stops only by raising or by running out of script, never by returning mid-loop |
| Volumes.VolumeDestinationIsSecondField | src/kodman/backend.py:165-172 | with a ":" the destination is exactly the second field, whatever follows it, and it must start with "/", so `"src:"` raises ValueError |
| Volumes.ArcName | src/kodman/backend.py:58-61 | the entry name differs from the destination exactly when the source is not a directory, the destination is one and the source has a base name; then it is the destination plus that name |
| Volumes.ArcNameKeepsFileName | src/kodman/backend.py:58-59 | "/tmp/f.txt" copied onto the directory "/work" becomes "/work/f.txt" |
| Volumes.CopyWritesFifoPrefix | src/kodman/backend.py:81-92 | the copy loop writes the chunks in FIFO order, each at most once, as many as the channel stays open for |
| Volumes.CopyRounds | src/kodman/backend.py:81-92 | the copy loop runs one round past the last chunk, or fewer if the channel closes first |
| Volumes.CopyOnlyChannelIO | src/kodman/backend.py:81-92 | the copy loop only updates, prints and writes to its channel |
| Volumes.CopyRelay | src/kodman/backend.py:81-92 | the loop that pops `commands` yields the trace of the copy specification |
| Volumes.CopyWritesArchiveAtMostOnce | src/kodman/backend.py:57-92 | one copy opens exactly one `tar xvf - -C /` channel and writes the single archive, with the chosen entry name, exactly when that channel opened and was open for a round |
| Volumes.CopyNeverChangesPods | src/kodman/backend.py:50-92 | a copy creates and deletes no pod |
| Volumes.CopyToPod | src/kodman/backend.py:50-92 | `cp_k8s` yields the outcome and trace of the copy specification |
| Volumes.MountVolumes | src/kodman/backend.py:163-180 | the volume loop yields the outcome, trace and remaining channels of the list-order specification |
| Volumes.ParseVolume | src/kodman/backend.py:165-172 | a volume argument is accepted exactly when its second ":"-field starts with "/", or, without one, when the resolved source is absolute; the source is the resolved first field; a rejection is the ValueError |
| Volumes.MountAllUsesOneChannelPerVolume | src/kodman/backend.py:163-180 | when every volume is copied, exactly one channel per volume has been used up and the remaining channels are the script's after one per volume |
| Volumes.MountAllFirst | src/kodman/backend.py:164-180 | a loop that went through every volume parsed the first volume, copied it on the first channel without error, then went through the rest |
| Volumes.MountAllCopiesInListOrder | src/kodman/backend.py:163-180 | when every volume is copied, volume i parsed and was copied on channel i, and its copy sits in the trace after the copies of the earlier volumes and before those of the later ones |
| Volumes.MountAllNeverChangesPods | src/kodman/backend.py:163-180 | mounting volumes creates and deletes no pod |
| Volumes.MountStopsAtFirstInvalid | src/kodman/backend.py:163-180 | if volume j is the first with a relative destination, the run raises ValueError after exactly the j earlier volumes opened their extraction channels |
| Kodman.ExecStep | src/kodman/backend.py:184-204 | the exec step extends the trace so far; the exit code is set exactly when it returns, and then it is the return code of the channel it opened |
| Kodman.RunSpec | src/kodman/backend.py:119-206 | the run's first effect creates the idle pod under the derived name; a rejected create raises at once; the exit code is set exactly when the run returns the derived name, which happens only after the pod left "Pending" |
| Kodman.RunCreatesOnePodAndDeletesNone | src/kodman/backend.py:119-206 | the run's first call creates the idle pod under the derived name, and it is the only pod the run creates or deletes |
| Kodman.RunReturnsNameAndExitCode | src/kodman/backend.py:196-206 | the exit code is set exactly when the run returns; it then returns the derived name and the return code of the channel after the one channel per volume |
| Kodman.RunPrintsStrippedOutput | src/kodman/backend.py:182-206 | a returning run is create, wait, volume copies, exec open, stripped relay, close, and prints the command's lines right-stripped |
| Kodman.Backend.constructor | src/kodman/backend.py:96-97 | `return_code` starts at 0 |
| Kodman.Backend.Run | src/kodman/backend.py:119-206 | `run` yields the outcome and trace of the run specification and sets `return_code` only when it returns |
| Kodman.Backend.Delete | src/kodman/backend.py:208-235 | `delete` is the delete-and-confirm loop with a two-second grace period |
| Kocker.EmptyCommandStillHashed | src/kocker/backend.py:24-33 | kocker hashes the command tuple even when empty, where kodman leaves it out |
| Kocker.OptionsHash | src/kocker/backend.py:24-33 | `__hash__` is non-negative and at most 2·maxsize+1 whenever the tuple hash is in range |
| Kocker.PodNameFor | src/kocker/backend.py:63 | the kocker pod name is "kocker-run-" followed by decimal digits |
| Kocker.RunSpec | src/kocker/backend.py:62-127 | the run's first effect creates the idle pod under the derived name; a rejected create raises at once; a returning run gives back the derived name after the first exec channel opened |
| Kocker.RunCreatesOnePodAndDeletesNone | src/kocker/backend.py:62-127 | the run's first call creates the idle pod under the derived name; it creates no other pod and deletes none |
| Kocker.RunReturnsNameAfterPlainRelay | src/kocker/backend.py:104-127 | a returning run gives back the derived name, prints exactly the untrimmed relay lines and closes the channel last |
| Kocker.Backend.constructor | src/kocker/backend.py:42-60 | the backend keeps the namespace of the current context |
| Kocker.Backend.Run | src/kocker/backend.py:62-127 | `run` yields the outcome and trace of the run specification and, whatever `rm` is, creates one pod and deletes none |
| Kocker.Backend.Delete | src/kocker/backend.py:129-155 | `delete` is the delete-and-confirm loop with no grace period |
| Engine.ParseBool | src/kodman/engine.py:72-78 | "true"/"1" in any case give True, "false"/"0" give False, anything else None |
| Engine.Convert | src/kodman/engine.py:67-87 | unset gives None before the type is looked at; TypeError, with the class's printed form in the message, exactly for a set value of an unsupported type; str unchanged; int parsed or None; bool as above |
| Engine.ConvertRendered | src/kodman/engine.py:67-92 | a variable set to the printed form of a value reads back that value under its type |
| Engine.EnvRegistry.constructor | src/kodman/engine.py:35-36 | the class-level registries start empty |
| Engine.EnvRegistry.Record | src/kodman/engine.py:89-90 | both registries map the variable to the new type and value; a new name goes last in insertion order, an old one keeps its place |
| Engine.ArgparseEngine.GetEnv | src/kodman/engine.py:67-92 | returns the conversion of the environment's value; records it in the shared registries unless a TypeError was raised, which leaves them unchanged |
| Engine.EnvLineShape | src/kodman/engine.py:97-102 | a line is "  NAME  typename", then "  (current: v)" exactly when v is truthy, then a newline |
| Engine.EpilogAfterNewVariable | src/kodman/engine.py:94-103 | registering a new variable appends exactly its line to the epilog |
| Engine.EpilogAfterReregistration | src/kodman/engine.py:94-103 | registering a variable again rewrites its own line in place and no other |
| Engine.FormatLine | src/kodman/engine.py:97-102 | one line starts with "  NAME  typename", ends with a newline, and has text in between exactly when the value is truthy |
| Engine.BuildEpilog | src/kodman/engine.py:95-102 | the `message +=` loop yields the header followed by one line per registered variable in insertion order |
| Engine.ArgparseEngine.ProcessEnv | src/kodman/engine.py:94-103 | the parser's epilog becomes the epilog of the shared registries |
| Engine.ArgparseEngine.constructor | src/kodman/engine.py:38-62 | a new engine uses the shared registries, has no commands and no epilog yet |
| Engine.ArgparseEngine.AddCommand | src/kodman/engine.py:64-65 | a command is appended after the ones already added |
| Engine.FirstMatch | src/kodman/engine.py:116-117 | the chosen command is the first whose lowercased class name equals the subcommand |
| Engine.Dispatch | src/kodman/engine.py:116-123 | dispatch exits with the exit code of the first matching command, or falls through when none matches |
| Engine.ArgparseEngine.Launch | src/kodman/engine.py:105-123 | `launch` sets the epilog, then exits with the first matching command's code or returns |

## Left out

- Kubernetes calls (`create_namespaced_pod`, `read_namespaced_pod`, `delete_namespaced_pod`, `stream`) are scripted answers; `connect()` and kube-config loading are not modelled.
- The tar archive bytes are an opaque chunk naming the source and the entry name; `tarfile` is not modelled.
- `Path.resolve()` and `Path.is_dir()` are host functions, left unconstrained: `Volumes.ParseVolume` also covers a `resolve` that yields a relative path, which `Path.resolve()` never does (`Volumes.VolumeWithoutDestinationAccepted` states the case of an absolute result); `Path` is modelled as a pure POSIX path (the special "//" root is not distinguished).
- `time.time()`, `time.sleep()` and CPython's tuple hash are inputs or recorded effects; the timestamp salt gives no uniqueness guarantee in the model.
- The websocket client's parsing of the exit status into `returncode` is not modelled: a closed channel carries an integer.
- `int()` is modelled as an optional sign followed by ASCII digits (no whitespace, underscores or other Unicode digits); `str.lower()` and `str.rstrip()` only know ASCII.
- Exceptions other than `ApiException`, ValueError and TypeError (network errors, exceptions out of `tarfile`) are not modelled.
- Logging, `rich` status and `ConsoleOutputHandler` are UI side effects and are not modelled.
- `argparse` parsing is replaced by the chosen subcommand as an input; `command.add`, `command.do` and `sys.exit` are not modelled beyond the exit code a command holds.
- `src/kocker/__main__.py` (the typer CLI) and `kodman.utilities.get_env` are not part of this model.
- The entrypoint and argument composition of the CLI layer is not part of this model; the command list reaches the backend as given.
