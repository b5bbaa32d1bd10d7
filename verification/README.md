# flow: sequential composition of fallible steps

This project models `Steps`, the sequential composer of the Go package `flow` (github.com/lovung/flow). A step (`Func[T]`) is a function from a shared context of type `T` to an `error`. `Steps(ctx, steps...)` calls the steps one after another, in list order, all with the same `ctx`. It stops at the first step that returns a non-nil error and returns that error unchanged. It returns nil when every step succeeds.

All of the model is in `flow.dfy`, in module `Flow`:

- `Option<E>` stands for Go's `error`: `None` is nil and `Some(e)` is a non-nil error `e`. Error values are opaque (type parameter `E`), so "returned unchanged" means equal as values.
- `Func<T, W, E>` is a step. Apart from its error, whatever a step does (log lines, sleeping, writes through the context pointer) is a change to a world value `W`. That world is passed from one step to the next, so a step may depend on what earlier steps did. The context `ctx` is the handle every step receives; the state behind it belongs to the world.
- `Steps` is a method with the source's loop. Besides the error and the final world, it returns a ghost trace of `Call` records: which step was called, with which context, in which world, and what it returned.
- `Run` is the reference semantics: a recursive function that runs all steps but the last, and calls the last step only if the others succeeded. `IsExecution` describes a run without recursion: the calls form a chain from step 0, only the last call may fail, and a non-nil result is exactly that call's error.

## Model

| member | source | states |
|---|---|---|
| Flow.Steps | flow.go:12-20 | The error, final world and call trace of the loop form an execution in the sense of `IsExecution`: steps are called in list order from step 0, each at most once, each with `ctx`, each in the world the previous one left. Only the last call may fail, and a non-nil result is exactly its error. A nil result means every step was called. The result also equals the reference semantics `Run`. |
| Flow.RunIsExecution | flow.go:12-19 | The reference semantics `Run` meets the declarative description `IsExecution`: same context for every call, list order, prefix-only calls, first error returned unchanged, nil only after every step. |
| Flow.ExecutionUnique | flow.go:12-20 | Any two traces that meet `IsExecution` for the same context, steps and world agree on the calls, the error and the final world. So the description pins down the behaviour of `Steps` completely. |
| Flow.RunStopsAtFailure | flow.go:15-17 | Once a prefix of the steps has failed, the steps after it have no effect at all: the result, the world and the call trace of the whole list equal those of the prefix. |
| Flow.FirstFailureIsReturned | flow.go:14-17 | If steps 0..k-1 succeed and step k fails, the result is exactly step k's error and the world is the one step k left. The calls are those of steps 0..k-1 followed by the single call of step k. |
| Flow.SucceedsIffEveryStepSucceeds | flow.go:13-19 | The result is nil if and only if every step, called in the world its predecessors left, returns nil (both directions). |
| Flow.AllStepsSucceed | flow.go:13-19 | When every step returns nil, the result is nil and every step was called exactly once, in list order, with the caller's context. |
| Flow.EmptyStepsReturnNil | flow.go:13-19 | With an empty step list, nothing is called, the world is unchanged and the result is nil. |
| Flow.RunAppend | flow.go:13-19 | Running `s1 + s2` means running `s1` and then, only if it succeeded, running `s2` in the world `s1` left. If `s1` failed, the outcome of `s1 + s2` is that of `s1`. |
| Flow.SequenceFlattens | flow.go:9-20 | A sequential group wrapped as a single `Func` and nested inside an outer sequence gives the same result and world as putting its steps in its place. |
| Flow.WorldIndependentFirstError | flow.go:13-19 | If each step's error does not depend on the world, the result is the first non-nil error of the steps' errors in list order (`FirstError`), or nil if there is none. |
| Flow.TestScenarios | flow_test.go:24-39 | The two sequential test cases, with steps that log their number. step1, step2, step3 return nil and all three run. With step2Error in the middle, the result is its error "some random error" and step3 never runs (the log is [1, 2]). |

## Left out

- `Go` (flow.go:23-32) is not modelled. It runs the steps concurrently through `golang.org/x/sync/errgroup`, which is not part of this model: goroutines, first-error capture, cancellation of the derived context and waiting for all steps.
- `WithCancelCause` (context.go:21-25) and the `EmbedableContext` interface (context.go:16-19) are not modelled. They wrap the standard library's `context` package (deadlines, `Done` channels, values, cancellation causes), which is not part of this model.
- The `Go` test cases (flow_test.go:52-100) are not modelled. They depend on goroutine scheduling and cancellation timing.
- `LoginContext.Embed` and the bodies of the test steps (flow_test.go:110-137) are not modelled beyond the logging steps of `TestScenarios`. Their only effects are a field assignment, log output and `time.Sleep`.
- The tests call a curried form `flow.Seq(steps...)(ctx)` (flow_test.go:25-29, 33-37) that flow.go does not define. The model follows flow.go's actual signature `Steps(ctx, steps...)`. `Sequence` plays the role of the curried form only inside `SequenceFlattens`.
- Steps are total functions. A step that panics or never returns is not modelled. A step's error is an abstract value, so Go's typed-nil interface pitfall is not modelled either: a nil pointer stored in an `error` counts as non-nil in Go.
- Steps: the step list is fixed when `Steps` starts. In Go, `range` fixes the slice length but reads each element from the backing array at the start of its iteration, and a call `Steps(ctx, fs...)` passes `fs` without copying it. A step that overwrites a later element of the caller's slice therefore changes which function Go calls next. The model does not capture this aliasing: it always calls the element the list held on entry.
- The trace returned by `Steps` is ghost. It records the calls but is not part of the program's output.
