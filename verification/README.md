# febft view-change synchronizer state and benchmark accumulator

A Dafny model of two small sequential pieces of the febft BFT replica.

**The synchronizer state record** (module `Sync`). This is the state a replica keeps for the Mod-SMaRt view change. It holds the protocol phase (`ProtoPhase`, seven variants, four of them counting collected messages), a timeout sequence number (an `i32`) and the installed view. The view is a type parameter `V`, because its definition is not part of this model. The repository implements only the constructor, `install_view` and the `view` accessor, so those are the only operations here. `install_view` overwrites the view and nothing else. The line that would return the phase to `Init` is commented out in the code, under a `FIXME` asking whether it is necessary (src/bft/sync/mod.rs:89-90); the code leaves that question open, and the model follows the code as written and keeps the phase. `View` is a function of the state, so reading the view cannot change the phase, the timeout sequence number or the view.

**The benchmark accumulator** (module `Benchmarks`). A `BenchmarkHelper` is a list of `i64` samples. There are three ways to store one sample:
- a `usize`;
- a pair of `SystemTime`s, which panics through `expect("Non-monotonic time detected!")` when the end is before the start;
- a pair of `Instant`s.

Each way appends one value, masked with `& i64::MAX`. Module `RustInts` defines that bitwise AND digit by digit and proves it equals reduction modulo 2^63. `Average` sorts a copy of the samples and drops `len/10` from each end when `percent` is set. It returns the integer numerator (the trimmed sum) and denominator (the window length) of the final division.

Module `Sorting` supplies the sort as an insertion sort and proves two facts. First, sorted permutations are unique, so the result equals that of any correct sort, `sort_unstable` included. Second, a sum depends only on the multiset of summed values.

Clock readings are integer counts of nanoseconds. `usize` is taken to be 64 bits wide.

## Model

| member | source | states |
|---|---|---|
| Sync.View | src/bft/sync/mod.rs:117-119 | reading the view exposes the installed view and alters nothing: installing the view just read back reproduces the state exactly |
| Sync.New | src/bft/sync/mod.rs:77-84 | a new synchronizer starts in phase `Init` with timeout sequence number 0, and reading its view gives back exactly the view it was created with |
| Sync.InstallView | src/bft/sync/mod.rs:88-92 | after installing `w` the view read back is `w`; the phase and the timeout sequence number are unchanged (the phase is not reset to `Init`) |
| Sync.InstallViewIdempotent | src/bft/sync/mod.rs:88-92 | installing the same view twice gives the same state as installing it once |
| Sync.InstallViewLastWins | src/bft/sync/mod.rs:88-92 | of two installations in a row only the second is visible, whatever view was installed before |
| Sync.InstallCurrentViewIsNoop | src/bft/sync/mod.rs:88-92 | re-installing the view that `view()` reports leaves the state as it was |
| Sync.InstallOnFreshIsFresh | src/bft/sync/mod.rs:77-92 | creating with one view and then installing another equals creating with the second |
| Sync.ViewAfterInstalls | src/bft/sync/mod.rs:88-92 | after any non-empty run of installations the view read back is the last one installed, and phase and timeout sequence number are those before the run |
| RustInts.MaskLowBits | src/bft/benchmarks/mod.rs:74-76 | a bitwise AND with `2^k - 1` equals the value modulo `2^k` |
| RustInts.MaskToI64 | src/bft/benchmarks/mod.rs:47-55 | masking with `i64::MAX` and casting to `i64` yields the value modulo 2^63, within `[0, i64::MAX]` |
| Benchmarks.New | src/bft/benchmarks/mod.rs:21-25 | creation panics with "capacity overflow" exactly when the reserved bytes (`8 * capacity`) would exceed `isize::MAX`; otherwise the new helper holds no samples |
| Benchmarks.Reset | src/bft/benchmarks/mod.rs:27-29 | after a reset the helper holds no samples |
| Benchmarks.ResetIdempotent | src/bft/benchmarks/mod.rs:27-29 | resetting twice is the same as resetting once |
| Benchmarks.ResetIsFresh | src/bft/benchmarks/mod.rs:21-29 | a reset helper equals a freshly created one of any capacity whose creation does not panic |
| Benchmarks.StoreUsize | src/bft/benchmarks/mod.rs:72-78 | storing `x` appends exactly one sample, equal to `x mod 2^63` and within `[0, i64::MAX]`, after the unchanged earlier samples |
| Benchmarks.StoreUsizeFitting | src/bft/benchmarks/mod.rs:74-76 | a `usize` no larger than `i64::MAX` is appended unchanged |
| Benchmarks.StoreSystemTime | src/bft/benchmarks/mod.rs:45-57 | it panics, through `expect` with the text "Non-monotonic time detected!", exactly when `end < start`; otherwise it appends `(end - start in ns) mod 2^63` after the unchanged earlier samples |
| Benchmarks.StoreInstant | src/bft/benchmarks/mod.rs:59-70 | for `start <= end` it appends `(end - start in ns) mod 2^63` after the unchanged earlier samples |
| Benchmarks.StoresKeepNonNegative | src/bft/benchmarks/mod.rs:45-78 | if every stored sample is non-negative, it stays so after any of the three stores |
| Benchmarks.TrimLimit | src/bft/benchmarks/mod.rs:33 | the trim is `len/10` with `percent` and 0 without; the window `[limit, len - limit)` is well formed and non-empty for every non-empty sequence |
| Benchmarks.Window | src/bft/benchmarks/mod.rs:32-37 | the slice summed by `average` (sorted copy, `limit` dropped from each end) has `len - 2*limit` samples, and without `percent` is the whole sorted copy |
| Benchmarks.Average | src/bft/benchmarks/mod.rs:31-42 | the denominator is `len - 2*limit` and positive for non-empty samples; without `percent` the numerator is the sum of all samples in arrival order and the denominator is `len` |
| Benchmarks.AverageDropsExtremes | src/bft/benchmarks/mod.rs:31-42 | cut any sorted arrangement of the samples into `low ++ mid ++ high` with `limit` samples at each end (`limit` = `len/10` with `percent`, 0 without): the numerator is the sum of all samples less the sums of `low` and `high`, and the denominator is `|mid|` |
| Benchmarks.WindowIsMiddle | src/bft/benchmarks/mod.rs:32-37 | the slice `average` sums is exactly the middle piece `mid` of any such cut, whichever sort produced the arrangement |
| Benchmarks.SumWindow | src/bft/benchmarks/mod.rs:37-39 | the iterator sum over the slice `[lo, hi)` equals the sum of that slice |
| Benchmarks.AverageIgnoresOrder | src/bft/benchmarks/mod.rs:32-35 | two helpers holding the same samples in any order have the same average, with or without trimming |
| Benchmarks.AverageWithinSampleRange | src/bft/benchmarks/mod.rs:31-42 | if all samples lie in `[lo, hi]`, then `lo * denominator <= numerator <= hi * denominator` |
| Benchmarks.AverageOfEmpty | src/bft/benchmarks/mod.rs:41 | with no samples both numerator and denominator are 0, the `0/0` case |
| Sorting.Sort | src/bft/benchmarks/mod.rs:35 | the result is in ascending order and is a permutation of the input |
| Sorting.SortedPermutationUnique | src/bft/benchmarks/mod.rs:35 | two sorted permutations of one sequence are equal, so every correct sort, stable or not, gives the same result |
| Sorting.SumOfPermutation | src/bft/benchmarks/mod.rs:35-39 | sequences with the same multiset of elements have the same sum, so sorting does not change the sum |
| Sorting.SumOfMiddle | src/bft/benchmarks/mod.rs:35-39 | the middle piece of any rearrangement `low ++ mid ++ high` of a sequence sums to the sum of that sequence less the sums of `low` and `high` |

## Left out

- `process_message` and `timed_out` (src/bft/sync/mod.rs:95-113): their bodies are `unimplemented!()`, so there is no transition behaviour to model. No operation of the model changes the phase.
- `ViewInfo` internals (quorum sizes, leader election): defined in `crate::bft::core::server`, which is not part of this model; the view is an opaque type parameter.
- The `Log`, `Node` and `Header` parameters and the `PhantomData` field: foreign collaborators or zero-sized markers with no state.
- The `f64` division at the end of `average`, including NaN for `0/0`: the model returns the integer numerator and denominator instead.
- Benchmarks.Average: the sum is over unbounded integers. Rust's `i64` sum can overflow (a panic in debug builds, wrap-around in release builds), and neither is modelled.
- Benchmarks.StoreSystemTime: the panic is described by the text passed to `expect`. The full panic message adds `": "` and the `Debug` form of the `SystemTimeError`, which is not modelled.
- Benchmarks.StoreInstant: requires `start <= end`. For `end < start`, `Instant::duration_since` panics or saturates to zero depending on the Rust toolchain version.
- Benchmarks.New: the capacity-overflow panic is modelled, but an allocator failure for a capacity within the bound (which aborts the process) is not, since it depends on the memory available at run time. Below the bound the capacity only pre-allocates and is not observable in the samples.
- `RequestMeta`: fields only, no behaviour.
- The async channel wrapper in src/bft/communication/channel/async_channel_mpmc/mod.rs: a thin asynchronous wrapper around an external crate, with no logic of its own.
- Clock readings are exact integers of nanoseconds. The clock resolution of `SystemTime` and `Instant` and the platform bounds on their range are not modelled.
