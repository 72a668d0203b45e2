/** The retention rule of the code cache cleanup: which siblings of the
    current code cache folder are stale, all judged against one instant
    `now` and one age threshold. */
module Retention {

  datatype Option<T> = None | Some(value: T)

  /** The product quality under which the long retention applies. */
  const Stable: string := "stable"

  const MillisPerDay: nat := 1000 * 60 * 60 * 24

  /** The age threshold in milliseconds, picked from the product quality:
      roughly three months for the stable quality, one week for any other
      quality (an absent quality included). */
  function DataMaxAge(quality: Option<string>): (maxAge: nat)
    ensures quality == Some(Stable) ==> maxAge == 90 * MillisPerDay == 7_776_000_000
    ensures quality != Some(Stable) ==> maxAge == 7 * MillisPerDay == 604_800_000
  {
    if quality != Some(Stable) then MillisPerDay * 7 else MillisPerDay * 30 * 3
  }

  /** What a stat of one child of the cache root reports; `mtime` is in
      milliseconds since the epoch. */
  datatype Entry = Entry(isDirectory: bool, mtime: int)

  /** A directory's children: name to stat. */
  type Listing = map<string, Entry>

  /** The per-entry eviction test: not the current folder, a directory, and
      strictly older than the threshold. */
  predicate ShouldDelete(name: string, entry: Entry, leaf: string, now: int, maxAge: nat)
  {
    name != leaf && entry.isDirectory && now - entry.mtime > maxAge
  }

  /** The children that a complete sweep leaves in place. */
  function Retained(children: Listing, leaf: string, now: int, maxAge: nat): (kept: Listing)
    ensures kept.Keys <= children.Keys
    ensures forall n :: n in kept ==> kept[n] == children[n]
    ensures forall n :: n in children ==>
      (n in kept <==> n == leaf || !children[n].isDirectory || now - children[n].mtime <= maxAge)
    ensures leaf in children ==> leaf in kept && kept[leaf] == children[leaf]
    ensures forall n :: n in children && !children[n].isDirectory ==> n in kept
  {
    map n | n in children && !ShouldDelete(n, children[n], leaf, now, maxAge) :: children[n]
  }

  /** The listed names processed one after another: each is removed when the
      rule selects it, judged on its stat in the directory as it then stands;
      a name no longer present is left alone. */
  function SweepInOrder(children: Listing, names: seq<string>, leaf: string, now: int, maxAge: nat): (rest: Listing)
    ensures rest.Keys <= children.Keys
    ensures forall n :: n in rest ==> rest[n] == children[n]
    decreases |names|
  {
    if names == [] then children
    else
      var before := SweepInOrder(children, names[..|names| - 1], leaf, now, maxAge);
      var name := names[|names| - 1];
      if name in before && ShouldDelete(name, before[name], leaf, now, maxAge) then before - {name}
      else before
  }

  /** A child is gone after the sweep exactly when it was listed and the rule
      selects it on its original stat. */
  lemma {:induction false} SweepInOrderRemovesListedStale(children: Listing, names: seq<string>, leaf: string, now: int, maxAge: nat)
    ensures forall n :: n in SweepInOrder(children, names, leaf, now, maxAge) <==>
      n in children && !(n in names && ShouldDelete(n, children[n], leaf, now, maxAge))
  {
    if names != [] {
      var init := names[..|names| - 1];
      SweepInOrderRemovesListedStale(children, init, leaf, now, maxAge);
      assert forall n :: n in names <==> n in init || n == names[|names| - 1];
    }
  }

  /** Sweeping a listing that names every child gives exactly the retained
      children, whatever the order of the listing. */
  lemma SweepOfFullListingIsRetained(children: Listing, names: seq<string>, leaf: string, now: int, maxAge: nat)
    requires forall n :: n in children ==> n in names
    ensures SweepInOrder(children, names, leaf, now, maxAge) == Retained(children, leaf, now, maxAge)
  {
    SweepInOrderRemovesListedStale(children, names, leaf, now, maxAge);
    var swept := SweepInOrder(children, names, leaf, now, maxAge);
    var kept := Retained(children, leaf, now, maxAge);
    assert swept.Keys == kept.Keys;
  }

  /** The outcome does not depend on the order in which the children are
      listed and processed. */
  lemma SweepOrderIrrelevant(children: Listing, names1: seq<string>, names2: seq<string>, leaf: string, now: int, maxAge: nat)
    requires forall n :: n in children ==> n in names1
    requires forall n :: n in children ==> n in names2
    ensures SweepInOrder(children, names1, leaf, now, maxAge) == SweepInOrder(children, names2, leaf, now, maxAge)
  {
    SweepOfFullListingIsRetained(children, names1, leaf, now, maxAge);
    SweepOfFullListingIsRetained(children, names2, leaf, now, maxAge);
  }

  /** Retaining is idempotent: nothing that survived a sweep is selected by a
      second one at the same instant. */
  lemma RetainedIdempotent(children: Listing, leaf: string, now: int, maxAge: nat)
    ensures Retained(Retained(children, leaf, now, maxAge), leaf, now, maxAge) == Retained(children, leaf, now, maxAge)
  {
    var once := Retained(children, leaf, now, maxAge);
    var twice := Retained(once, leaf, now, maxAge);
    assert twice.Keys == once.Keys;
  }

  /** A second sweep at the same instant, over any listing of what the first
      one left, deletes nothing. */
  lemma SecondSweepDeletesNothing(children: Listing, names: seq<string>, leaf: string, now: int, maxAge: nat)
    requires forall n :: n in Retained(children, leaf, now, maxAge) ==> n in names
    ensures SweepInOrder(Retained(children, leaf, now, maxAge), names, leaf, now, maxAge) == Retained(children, leaf, now, maxAge)
  {
    SweepOfFullListingIsRetained(Retained(children, leaf, now, maxAge), names, leaf, now, maxAge);
    RetainedIdempotent(children, leaf, now, maxAge);
  }

  /** An entry aged exactly the threshold survives; one millisecond older,
      a directory other than the current one is selected. */
  lemma AgeComparisonIsStrict(name: string, leaf: string, now: int, maxAge: nat)
    requires name != leaf
    ensures !ShouldDelete(name, Entry(true, now - maxAge), leaf, now, maxAge)
    ensures ShouldDelete(name, Entry(true, now - maxAge - 1), leaf, now, maxAge)
  {
  }

  /** A cache root holding the current folder, a ten-day-old folder, a
      two-day-old folder and a ten-day-old file, swept under the one-week
      threshold: only the ten-day-old folder goes. */
  lemma InsidersScenario(now: int)
    ensures
      var maxAge := DataMaxAge(Some("insider"));
      var children := map[
        "current" := Entry(true, now - 400 * MillisPerDay),
        "old1" := Entry(true, now - 10 * MillisPerDay),
        "old2" := Entry(true, now - 2 * MillisPerDay),
        "fresh.txt" := Entry(false, now - 10 * MillisPerDay)];
      Retained(children, "current", now, maxAge) == children - {"old1"}
  {
    var maxAge := DataMaxAge(Some("insider"));
    var children := map[
      "current" := Entry(true, now - 400 * MillisPerDay),
      "old1" := Entry(true, now - 10 * MillisPerDay),
      "old2" := Entry(true, now - 2 * MillisPerDay),
      "fresh.txt" := Entry(false, now - 10 * MillisPerDay)];
    var kept := Retained(children, "current", now, maxAge);
    assert "old1" !in kept;
    assert kept.Keys == (children - {"old1"}).Keys;
  }
}
