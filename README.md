# Graceful-shutdown coordinator, modelled in Dafny

This project models the Go package `shutdown` (shutdown.gracefully). The package
keeps one process-wide `watchdog`. It holds a counter of in-flight jobs, the caller's
cancellation context, that context's cancel function and a logger. Its operations are:

- `Init` checks its three arguments in order: ctx, then cancel, then logger. It then
  installs the watchdog under a `sync.Once`, so only the first accepted call does so.
- `AddJob` and `DoneJob` move the counter by +1 and -1 with `atomic.AddInt64`. They fail
  if `Init` has not installed a watchdog.
- `StandBy` fails in the same way when no watchdog is installed. Otherwise it waits for
  the context to be cancelled and then runs the drain loop. The loop polls the counter
  until it is zero or negative, logging one warning with the remaining count per poll
  that stays open. It then logs a final notice and returns nil.

Files:

- `int64.dfy` (module `Int64Arith`): two's-complement arithmetic of the `int64` counter
  as `atomic.AddInt64` performs it. It also holds lemmas about repeated increments and
  decrements, including the wrap-around.
- `shutdown.dfy` (module `Shutdown`):
  - the error, warning and option datatypes, and the argument check `Validate`;
  - the specification of the drain loop (`FirstDrained`, `DrainLog`);
  - class `Watchdog`, whose `jobs` field is updated in place;
  - class `Coordinator`, the package-level state: the `once` guard, the `instance`
    pointer, the pairing of cancel functions with their contexts, the set of cancelled
    contexts and the warnings sent to the logger.

Collaborators (contexts, cancel functions, loggers) are opaque handles. A nil argument
is `None`. The coordinator is given a fixed map from each cancel function to the context
it closes, standing for the pairs that `context.WithCancel` created. Calling a logger appends a `Warning` to `Coordinator.log`.

The drain loop cannot see other goroutines, so `StandBy` receives the successive values
its polls of the counter return as a sequence `observed`. The method requires two things
of a watchdog that is installed:

- its context has already been cancelled. This stands for the blocking wait on
  `ctx.Done()`.
- some observation is zero or negative. This stands for the jobs eventually finishing.

## Model

| member | source | states |
|---|---|---|
| `Int64Arith.Wrap` | shutdown.go:26 | the stored int64 value lies in the int64 range, is congruent to the mathematical value modulo 2^64, and equals it when it is in range |
| `Int64Arith.AtomicAdd` | shutdown.go:72 | `atomic.AddInt64` adds exactly when the sum fits in int64; past the maximum it wraps down by 2^64, and below the minimum it wraps up by 2^64 |
| `Int64Arith.AfterAddsIsWrappedSum` | shutdown.go:67-75 | n successive `AddJob` increments move the counter by n, modulo 2^64 |
| `Int64Arith.AfterDonesIsWrappedDifference` | shutdown.go:77-85 | n successive `DoneJob` decrements move the counter by -n, modulo 2^64 |
| `Int64Arith.AfterDonesExact` | shutdown.go:77-85 | from a counter x >= n, n decrements leave exactly x - n |
| `Int64Arith.BalancedJobsRestore` | shutdown.go:67-85 | N increments followed by N decrements return the counter to its prior value, for every starting value, overflow included |
| `Shutdown.Validate` | shutdown.go:36-45 | success exactly when all three arguments are present; "ctx required" exactly when ctx is missing; "cancel required" exactly when ctx is present and cancel is missing; "logger required" exactly when both are present and logger is missing |
| `Shutdown.FirstDrained` | shutdown.go:114-122 | the drain loop exits at the first observed count that is <= 0: that count is <= 0 and every earlier one is positive |
| `Shutdown.DrainLog` | shutdown.go:114-125 | the drain logs exactly one progress warning per positive count observed before the exit, each carrying that count, and then the final graceful-shutdown notice |
| `Shutdown.DrainWaitsForEveryJob` | shutdown.go:114-122 | the counter stood at k >= 0 when the drain began, and before each poll any number (none included) of the k jobs have called `DoneJob`. Then the loop exits at the first poll by which all k have, and at no earlier poll |
| `Shutdown.DrainLogOneDonePerPoll` | shutdown.go:114-125 | with the counter at k >= 0 and exactly one `DoneJob` between polls, the loop exits at poll k, having logged the counts k, k-1, ..., 1 and then the final notice |
| `Shutdown.MessagesDistinct` | shutdown.go:37-60 | the four error texts ("ctx required", "cancel required", "logger required", and the not-initialized text) are pairwise different, so each error is identified by its message |
| `Shutdown.Watchdog.constructor` | shutdown.go:48-52 | a new watchdog holds the given ctx, cancel and logger, and its job counter is 0 |
| `Shutdown.Coordinator.constructor` | shutdown.go:20-23 | before any call, the once guard has not fired, no instance is installed, nothing is cancelled and nothing is logged; the given pairing of cancel functions with the contexts they close is kept |
| `Shutdown.Coordinator.Initialized` | shutdown.go:58-65 | the guard succeeds exactly when an instance is installed; otherwise it returns the not-initialized error |
| `Shutdown.Coordinator.Init` | shutdown.go:36-56 | the result is the argument check. A rejected call leaves the once guard and the instance untouched, so a later valid call still installs. The first accepted call installs a fresh watchdog with the given collaborators and a zero counter. Every later call keeps the instance, its collaborators and its counter: the first writer wins |
| `Shutdown.Coordinator.AddJob` | shutdown.go:67-75 | before `Init`: the not-initialized error, and nothing changes. After: the counter becomes `atomic.AddInt64(jobs, 1)`, which is exactly one more below the maximum. Only the counter changes |
| `Shutdown.Coordinator.DoneJob` | shutdown.go:77-85 | before `Init`: the not-initialized error, and nothing changes. After: the counter becomes `atomic.AddInt64(jobs, -1)`, which is exactly one less above the minimum. There is no lower-bound check, so 0 becomes -1 |
| `Shutdown.Coordinator.Cancel` | shutdown.go:102 | calling a cancel function marks done exactly the context it belongs to, and no other; a function that belongs to no context changes nothing; a second call has no further effect |
| `Shutdown.Coordinator.StandBy` | shutdown.go:87-126 | before `Init`: the not-initialized error, and nothing is logged. After: it returns nil, and the log grows by exactly `DrainLog(observed)`, i.e. one progress warning per positive poll before the first count <= 0, then the final notice |

## Left out

- The listener goroutine of `StandBy` (shutdown.go:92-106) is not modelled: `signal.Notify`, `signal.Stop`, and the `select` that races an OS signal against `ctx.Done()`. Its two warnings ("something cause context canceled" and "get signal <...>") are left out with it. Its effect on the state is calling `instance.cancel()`, which `Coordinator.Cancel` models when given the installed cancel function.
- Shutdown.Coordinator.StandBy: the blocking wait on `ctx.Done()` (shutdown.go:109-111) becomes a precondition that the installed context is already cancelled.
- Shutdown.Coordinator.StandBy: `Init` does not check that its `cancel` belongs to its `ctx`, and neither does the model. With a mismatched pair, calling `Cancel` on the installed cancel function leaves the installed context open. `StandBy`'s precondition then cannot be met by that call, and the source blocks forever.
- Shutdown.Coordinator.StandBy: it requires that some observation is <= 0. So a drain that never ends, because jobs never finish, is outside the model. The source then blocks forever.
- Shutdown.Coordinator.StandBy: the 500 ms `time.Sleep` between polls (shutdown.go:119) is not modelled, since time is not part of the model.
- Concurrency: interleavings of `AddJob`, `DoneJob` and the drain loop are not modelled. `atomic.AddInt64` is a plain field update. The values that `atomic.LoadInt64` returns to the drain loop come from the `observed` sequence. They are not linked to the `jobs` field, which other goroutines would be changing meanwhile.
- Logging is abstracted to appending a `Warning` value. Message formatting through `fmt.Sprint` and the variadic `Logger.Warning` (shutdown.go:32-34) is not modelled.
- Error values are the `Error` datatype. `Message` gives the text each one carries.
- The example program (example/shutdown_example.go) is not modelled. It only wires a logging backend, goroutines, sleeps and a signal around the package.
