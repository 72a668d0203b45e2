# Code cache cleaner

A model of the editor's code cache cleaner. When the shared process starts, the
cleaner is built with the path of the code cache folder in use. If that path is
present and non-empty, it schedules one cleanup. The cleanup lists the cache
root, which is the parent of the current folder. It deletes every sibling folder
that is not the current one and whose last modification is strictly older than a
threshold. The threshold is one week for any product quality except `stable`,
and about three months (90 days) for `stable`. If the root cannot be listed, the
error goes to the unexpected-error sink and nothing is deleted.

Two modules:

- `Retention` (`retention.dfy`): the pure rule. `DataMaxAge` is the threshold.
  `ShouldDelete` is the per-entry test. `Retained` is the set of children a full
  sweep leaves. `SweepInOrder` processes a listing one name at a time. The lemmas
  show that a full sweep in any order yields `Retained`, and that a second sweep
  deletes nothing.
- `Cleaner` (`cleaner.dfy`): the stateful side. `FileSystem` holds the
  directory listings the cleanup reads. It maps each listable directory path to
  its children (name to `Entry(isDirectory, mtime)`), with `Readdir` and
  `Rimraf`. `IsTruthy` is the arming test: a present, non-empty path. `ErrorSink` collects unexpected errors. `CodeCacheCleaner` holds the
  threshold and a scheduler state `Inert | Armed | Fired`; its
  `CleanUpCodeCaches` removes the selected keys in a loop. That loop is proved
  against `Retained`.

The clock, the path library and the file system are parameters or objects of the
model. `now` is passed in, in milliseconds. `dirname` and `basename` are passed
in as functions.

## Model

| member | source | states |
|---|---|---|
| `Retention.DataMaxAge` | src/vs/code/electron-browser/sharedProcess/contrib/codeCacheCleaner.ts:16-18 | the threshold is 7 days (604 800 000 ms) unless the quality is `stable`, where it is 90 days (7 776 000 000 ms); an absent quality counts as not stable |
| `Retention.Retained` | src/vs/code/electron-browser/sharedProcess/contrib/codeCacheCleaner.ts:51-62 | a child survives iff it is the current leaf, or not a directory, or `now - mtime <= maxAge`; survivors keep their stat, nothing is added, the current leaf and every non-directory always survive |
| `Retention.SweepInOrder` | src/vs/code/electron-browser/sharedProcess/contrib/codeCacheCleaner.ts:50-63 | processing a listing entry by entry only removes children and never alters a surviving child's stat |
| `Retention.SweepInOrderRemovesListedStale` | src/vs/code/electron-browser/sharedProcess/contrib/codeCacheCleaner.ts:50-63 | after processing a listing, a child is gone iff it was listed and the rule selects it on its original stat |
| `Retention.SweepOfFullListingIsRetained` | src/vs/code/electron-browser/sharedProcess/contrib/codeCacheCleaner.ts:49-63 | a sweep over a listing that names every child leaves exactly `Retained` |
| `Retention.SweepOrderIrrelevant` | src/vs/code/electron-browser/sharedProcess/contrib/codeCacheCleaner.ts:42-50 | with one `now` for all entries, any two complete listings give the same outcome |
| `Retention.RetainedIdempotent` | src/vs/code/electron-browser/sharedProcess/contrib/codeCacheCleaner.ts:50-63 | retaining the retained children at the same `now` changes nothing |
| `Retention.SecondSweepDeletesNothing` | src/vs/code/electron-browser/sharedProcess/contrib/codeCacheCleaner.ts:50-63 | a second sweep at the same `now`, in any listing order, deletes nothing |
| `Retention.AgeComparisonIsStrict` | src/vs/code/electron-browser/sharedProcess/contrib/codeCacheCleaner.ts:58 | a directory aged exactly the threshold is kept; one millisecond older, it is selected |
| `Retention.InsidersScenario` | src/vs/code/electron-browser/sharedProcess/contrib/codeCacheCleaner.ts:16-18 | under the one-week threshold, only the ten-day-old non-current folder is removed; the current folder, a two-day-old folder and a ten-day-old file stay |
| `Cleaner.FileSystem.Readdir` | src/vs/code/electron-browser/sharedProcess/contrib/codeCacheCleaner.ts:49 | listing a missing directory fails with `NotFound`; otherwise every child is listed exactly once |
| `Cleaner.FileSystem.Rimraf` | src/vs/code/electron-browser/sharedProcess/contrib/codeCacheCleaner.ts:61 | deleting removes exactly the one child from its parent's listing and tolerates a missing target |
| `Cleaner.ErrorSink.OnUnexpectedError` | src/vs/code/electron-browser/sharedProcess/contrib/codeCacheCleaner.ts:65 | the error is appended to the sink and nothing is raised |
| `Cleaner.CodeCacheCleaner.constructor` | src/vs/code/electron-browser/sharedProcess/contrib/codeCacheCleaner.ts:16-35 | the threshold is fixed from the quality; the sweep is armed iff the path is present and non-empty, otherwise the cleaner stays inert; no sweep has run |
| `Cleaner.CodeCacheCleaner.Fire` | src/vs/code/electron-browser/sharedProcess/contrib/codeCacheCleaner.ts:31-34 | when the timer elapses, an armed cleaner runs exactly one sweep and becomes fired; an inert or fired cleaner changes nothing; the invariant keeps the sweep count at most one |
| `Cleaner.CodeCacheCleaner.Dispose` | src/vs/code/electron-browser/sharedProcess/contrib/codeCacheCleaner.ts:31 | teardown cancels a pending sweep, so it never runs; a fired or inert cleaner is unchanged |
| `Cleaner.CodeCacheCleaner.CleanUpCodeCaches` | src/vs/code/electron-browser/sharedProcess/contrib/codeCacheCleaner.ts:38-67 | if the root exists, its listing becomes `Retained(children, basename(path), now, maxAge)` and no other listing changes, with no error reported (deletion cannot fail in the model); if it does not exist, nothing changes and exactly one `NotFound(root)` goes to the sink |
| `Cleaner.CodeCacheCleaner.RemoveStale` | src/vs/code/electron-browser/sharedProcess/contrib/codeCacheCleaner.ts:50-63 | over any listing that names every child of the root, the loop leaves the root's listing equal to `Retained` and changes no other listing |
| `Cleaner.CodeCacheCleaner.CleanUpEntry` | src/vs/code/electron-browser/sharedProcess/contrib/codeCacheCleaner.ts:51-62 | one child is deleted exactly when it is present and `ShouldDelete` holds of its stat; otherwise nothing changes |
| `Cleaner.SweepTwice` | src/vs/code/electron-browser/sharedProcess/contrib/codeCacheCleaner.ts:50-63 | two sweeps at the same `now` leave what one sweep leaves and report no error |

## Left out

- The 30-second delay and the timer of `RunOnceScheduler` are not modelled. The
  timer firing is the `Fire` operation, and the scheduler is the
  `Inert | Armed | Fired` state.
- `Disposable` and `_register` are reduced to `Dispose`, which cancels a pending
  sweep.
- Logging through the log service is left out. It is a side channel: the
  "starting" line and the per-folder "removing" line.
- `Date.now()` becomes the parameter `now`.
- The path library's `dirname`, `basename` and `join` are not part of this
  model. `dirname` and `basename` are function parameters. A child is addressed
  as a (directory, name) pair instead of a joined path.
- `Promise.all` runs the per-entry work concurrently. The model processes the
  listing one entry at a time, each entry's stat and delete together.
  `SweepOrderIrrelevant` covers every sequential order of whole entries, not
  interleavings of one entry's stat and delete with another's. Those
  interleavings give the same result because each entry touches only its own
  path, and no entry's decision reads another's.
- The model does not cover other processes changing the cache root during a
  sweep. Per-entry `stat` failures are not modelled, and `CleanUpEntry` skips a
  child that is no longer present. In the source, a failing `stat` rejects the
  aggregate wait, and the error goes to the unexpected-error sink. Deletions
  already under way go on.
- A listing failure is modelled only for a root that does not exist. Other
  causes, such as permissions or a root that is a file, are not modelled.
- A failing deletion is not modelled: `Rimraf` always succeeds. In the source,
  a deletion that fails for a reason other than a missing target (permission
  denied, a folder held open by another instance) rejects the aggregate wait.
  Its error goes to the unexpected-error sink, and the other deletions go on.
  So the model's "no error reported" for an existing root holds only when every
  deletion succeeds.
- Recursive deletion is one key removal from the parent's listing. The contents
  below a deleted folder are not tracked, and the deleted folder's own listing,
  if present under its own path, is not removed.
- The promise that the source's cleanup returns is not modelled. The cleanup is
  a method that finishes before it returns.
