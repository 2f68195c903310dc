# go-pscan scanning engine in Dafny

A model of the core of go-pscan (package `ipscan`), a range scanner that
probes every IPv4 address of an inclusive range `[MinIP, MaxIP]` with a
number of workers running in parallel. The model has three parts.

- **Scanner** (`scanning.dfy`, module `Scanning`). `NewScanner` records its
  arguments and calls `addWorkers`. That method sets `Metric.Count` to
  `el - sl` and walks `min` from `sl` in steps of `ceil((el - sl) / Threads)`.
  For each step it appends a `Worker` for `[min, min(min + step, el)]`.
  `SendSignal` writes one signal into every worker. The pure functions
  `Partitions` and `Layout` (scanner.go:47-57) give the list of worker
  bounds that `addWorkers` produces.
  The class `Scanner` and its methods are proved to build exactly that list,
  and lemmas prove the list's properties: count, shape, order, chaining and
  coverage.
- **Worker** (`workers.dfy`, module `Workers`). `Worker.Each` clears the
  signal and loops a cursor `l` from `CurLong` to `MaxLong`. On each
  iteration it switches on the signal:
  - Restart rewinds to `MinLong` and clears the signal.
  - Stop's `break` only leaves the switch.
  - The Pause wait loop runs only while the signal is *not* Pause. If no
    write lands between the switch and that loop's guard, the loop never
    runs.

  It then stores `l` in `CurLong`, calls the probe callback, and stores `l`
  in `OkLong` when the callback answers true. The probe callback and the
  goroutines that call `SendSignal` concurrently are the environment. They
  appear as two inputs:
  - `writes[k]` is the signal, if any, stored before iteration `k` reads it;
  - `verdicts(k)` is the callback's answer on its `k`-th call.

  With these inputs the loop is deterministic. The pure function `Run`
  (worker.go:30-52) is that state machine, and `Step` is one pass of its
  body. The imperative `Worker.Each` is proved equal to `Run`, and
  `Worker.Visit` to `Step`.
  Lemmas about `Run` state what the loop does in each case.
- **Addresses** (`addresses.dfy`, module `Addresses`). This part covers:
  - `LongToIP4`, the big-endian four-byte form of a `uint32`;
  - the big-endian decode `Uint32` that `addWorkers` applies to its endpoints;
  - `net.IP.To4`;
  - `IsExternalIP4`, the octet table of private, loopback and reserved
    IPv4 blocks.

  The codec is proved to round-trip in both directions. The octet table is
  proved equal to a table of CIDR blocks.

Integers are unbounded. Every address is below 2^32. The source's `uint64`
fields never overflow on such values, so no wrap-around is modelled.

The code behaves as follows, which may be unexpected:
- Adjacent workers share one boundary address. `[sl, sl + 9]` with two
  threads gives `[sl, sl + 5]` and `[sl + 5, sl + 9]`, not `[sl, sl + 4]`
  and `[sl + 5, sl + 9]`.
- `Count` is `el - sl`, one less than the number of addresses.
- `sl == el` creates no worker, so a single-address range is never scanned.
- Nothing in this code updates `Done`, so it stays 0.
- Stop does not end `Each`. Pause does not block it as long as no write
  lands between the switch and the wait loop's guard.

## Model

| member | source | states |
|---|---|---|
| Addresses.Uint32 | scanner.go:44 | the big-endian decode of four bytes is below 2^32; its top byte is the first byte and its low byte the last |
| Addresses.LongToIP4 | func.go:45-50 | the encoding of an address is exactly four bytes |
| Addresses.DecodeEncode | func.go:45-49 | decoding `LongToIP4(n)` as scanner.go does gives `n` back, for every 32-bit `n` |
| Addresses.EncodeDecode | scanner.go:44 | encoding the decoded value of any four bytes gives the same four bytes, so the codec is a bijection |
| Addresses.To4 | func.go:25 | an IPv4 form, when there is one, has four bytes |
| Addresses.IsExternalIP4 | func.go:20-43 | the octet switch itself: an address that is not global unicast is never external, and a global-unicast address with no IPv4 form is external; `ExternalIffOutsideBlocks` fixes the IPv4 case |
| Addresses.ExternalIffOutsideBlocks | func.go:20-43 | an address is external exactly when it is global unicast and either has no IPv4 form, or its IPv4 value lies outside 10/8, 127/8, 240/8, 172.16/12, 192.168/16 and 169.254/16; non-global-unicast addresses are never external |
| Addresses.Edges172 | func.go:33 | 172.16.x.x and 172.31.x.x are not external, while 172.15.x.x and 172.32.x.x fall through to external |
| Workers.RunCursor | worker.go:30-49 | each callback call returns that call's verdict; no call is made exactly when the entry cursor is past `MaxLong`, and then nothing changes; otherwise `CurLong` ends on the last address probed |
| Workers.CurEndsOnMax | worker.go:30-47 | whatever signals arrive, a loop entered with the cursor at or below `MaxLong` (and `MinLong <= MaxLong`) ends with `CurLong` on `MaxLong` |
| Workers.RunWithinBounds | worker.go:30-47 | no call probes an address past `MaxLong`, except the `MinLong` a Restart rewinds to |
| Workers.RunOk | worker.go:49-51 | `OkLong` ends on the address of the last call that answered true, and is unchanged when no call did |
| Workers.NoRestartScansInOrder | worker.go:30-52 | with no Restart seen, the callback is called exactly once for each address from the entry cursor to `MaxLong`, in increasing order; the cursor ends on `MaxLong`; with no signal written, the signal is unchanged at the end |
| Workers.RestartRescans | worker.go:34-36 | a Restart seen at an iteration rewinds to `MinLong`, clears the signal and probes `MinLong`; with no later Restart, the whole partition `MinLong..MaxLong` is then probed in order and the cursor ends on `MaxLong`; with no later write the signal stays cleared |
| Workers.StopDoesNotEndLoop | worker.go:32-33 | a Stop seen at the first iteration does not end the loop: every address up to `MaxLong` is still probed, and the signal stays Stop |
| Workers.PauseNeverBlocks | worker.go:37-41 | a Pause seen at the first iteration never waits: every address up to `MaxLong` is probed, and the signal stays Pause |
| Workers.Worker.constructor | scanner.go:62-67 | a new worker has the given bounds, both cursors at `MinLong`, and an empty signal |
| Workers.Worker.Each | worker.go:27-53 | the signal is cleared, then the fields and the calls made are exactly those of `Run` from the entry cursor; `MinLong` and `MaxLong` do not change |
| Workers.Worker.Visit | worker.go:31-51 | one iteration moves the cursor and the worker's fields exactly as `Step` says: a Restart seen rewinds to `MinLong` and clears the signal, any other signal is kept, `CurLong` becomes the address probed, and `OkLong` becomes it only on a true verdict |
| Workers.Worker.SendSignal | worker.go:55-57 | the signal is the one sent, and no other field changes |
| Scanning.CeilDiv | scanner.go:47-48 | the step is the least `r` with `r * Threads >= el - sl` |
| Scanning.StepBounds | scanner.go:47-48 | the step is 0 for an empty span, and between 1 and the span otherwise |
| Scanning.PartitionAt | scanner.go:51-55 | worker `i` has `MinLong = sl + i * step` and `MaxLong = min(MinLong + step, el)`, so `MinLong < MaxLong <= el` |
| Scanning.PartitionsShape | scanner.go:51-57 | the same bounds, for every worker at once |
| Scanning.PartitionsCount | scanner.go:51 | no worker is created exactly when `sl >= el` (so `sl == el` yields none); otherwise the last worker starts less than `el` |
| Scanning.PartitionsChain | scanner.go:51-57 | the first worker starts at `sl`, the last ends at `el`, and each worker's `MaxLong` is the next worker's `MinLong` |
| Scanning.PartitionsOrdered | scanner.go:51-57 | workers appear in increasing order; consecutive ones share one boundary address, and others do not overlap |
| Scanning.PartitionsCover | scanner.go:51-57 | when `sl < el`, the inclusive worker ranges together are exactly `[sl, el]` |
| Scanning.NoGaps | scanner.go:51-57 | every address of `[sl, el]` lies in some worker's range |
| Scanning.NothingOutside | scanner.go:51-57 | no worker's range holds an address outside `[sl, el]` |
| Scanning.LayoutSize | scanner.go:47-51 | no more workers than `Threads` are created |
| Scanning.LayoutSingleThread | scanner.go:47-57 | one thread over a non-empty range gives one worker for the whole range |
| Scanning.LayoutTenAddresses | scanner.go:47-57 | `[sl, sl + 9]` with two threads gives `[sl, sl + 5]` and `[sl + 5, sl + 9]` |
| Scanning.Scanner.constructor | scanner.go:29-41 | the scanner keeps its arguments, has `Count = el - sl` and `Done = 0`, and has exactly one new, distinct, fresh worker per range of `Layout`, in order |
| Scanning.Scanner.AddWorkers | scanner.go:43-59 | `Count` becomes `el - sl`; existing workers are kept; one new worker per range of `Layout` is appended in order, each with its cursors at its `MinLong` |
| Scanning.Scanner.AddWorker | scanner.go:61-70 | exactly one fresh worker for `[min, max]` is appended, and the earlier workers are kept |
| Scanning.Scanner.SendSignal | scanner.go:86-94 | every worker's signal is the one sent; bounds and cursors stay as they were; the worker list and the metrics are not touched |

## Left out

- `Scanner.Each` (scanner.go:72-84) starts one goroutine per worker and
  joins them with a `sync.WaitGroup`. Its only content is concurrency, so
  the model has none of it. Each worker's loop is modelled on its own.
- The scanner's `sync.Mutex` and the unsynchronised reads of `Signal` are
  not modelled. A concurrent signal change is an input to `Worker.Each`:
  at most one write is seen per iteration, just before the switch. A write
  landing between the switch and the Pause wait-loop guard is not modelled.
- `SaveFile` and `LoadFile` are JSON plus file I/O, so they are not modelled.
- `CheckPort` and check.go are a TCP dial with a timeout, so they are not
  modelled.
- The Pause wait loop (worker.go:38-41) and its `time.Sleep` are not
  modelled. With writes landing only before the switch, its guard fails
  whenever the Pause case is taken, so it never runs. In the real program
  a write can land after the switch reads Pause and before the guard,
  for example a Resume. The guard then holds, and each pass clears the
  signal, which keeps it holding. The worker then waits until a Pause
  happens to be stored just before the guard is checked again. Any other
  signal written meanwhile, Stop included, is erased.
- `math.Ceil` over `float64` is modelled as exact integer ceiling division
  (`Scanning.CeilDiv`). The two agree for every span below 2^53, which
  covers all 32-bit spans.
- `net.ParseIP` and `IP.IsGlobalUnicast` are library calls. The scanner
  takes its endpoints already decoded as 32-bit integers.
  `Addresses.IsExternalIP4` takes the global-unicast answer as a parameter.
- `Scanning.Scanner.constructor` requires `MinIP <= MaxIP` and
  `Threads >= 1`, and so does `Scanning.Scanner.AddWorkers`. With
  `Threads == 0` the float-to-integer conversion at scanner.go:48 has no
  defined result. With `MinIP > MaxIP` the subtraction at scanner.go:49
  wraps around.
- `Workers.Worker.Each` checks `l <= MaxLong` on unbounded integers. The
  source's `uint64` loop variable cannot overflow on 32-bit bounds, so the
  two agree. `uint32(l)` at worker.go:45 is then the identity.
- `Workers.Worker.Each` passes only the loop variable to the callback,
  not its `net.IP` rendering. That rendering is `Addresses.LongToIP4`.
- `Workers.Worker.Each` terminates only because the environment makes
  finitely many writes, all of them before a switch. The source's loop
  can run forever in two ways the model does not cover: a writer that
  keeps storing Restart, and the Pause wait loop entered through a write
  after the switch, as described above.
- Signal strings other than the four constants and the empty string are
  not modelled.
