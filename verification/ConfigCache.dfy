/**
 The generation-guarded settings cache of `backend/config.py`: any number of threads
 loading and saving in one process, and other Machines writing the same row.

 `Cache` is the pair of module globals, `ConfigCache` the same two fields written under
 the lock. In a run a value is known by its version: how many writes of the row had
 committed when it became current.
 */
module ConfigCache {
  import opened Options

  type Time = int

  /** Two seconds, in milliseconds. */
  const TTL: nat := 2000

  datatype Entry<+T> = Entry(expiresAt: Time, value: T)

  datatype Cache<+T> = Cache(entry: Option<Entry<T>>, generation: nat) {
    /** What a load may answer from without a query. */
    function Hit(skipCache: bool, now: Time): Option<T> {
      if !skipCache && entry.Some? && now < entry.value.expiresAt then Some(entry.value.value) else None
    }
  }

  function Invalidated<T>(c: Cache<T>): Cache<T> { Cache(None, c.generation + 1) }

  /** A read publishes only if nothing was invalidated since it began. */
  function Published<T>(c: Cache<T>, generation: nat, value: T, now: Time): Cache<T> {
    if generation == c.generation then Cache(Some(Entry(now + TTL, value)), generation) else c
  }

  class Globals<T> {
    var cached: Option<Entry<T>>
    var generation: nat

    constructor ()
      ensures State() == Cache(None, 0)
    {
      cached, generation := None, 0;
    }

    function State(): Cache<T>
      reads this
    {
      Cache(cached, generation)
    }

    method Invalidate()
      modifies this
      ensures State() == Invalidated(old(State()))
    {
      generation := generation + 1;
      cached := None;
    }

    /** The first locked section of `load_config`. */
    method Begin(skipCache: bool, now: Time) returns (hit: Option<T>, captured: nat)
      ensures hit == State().Hit(skipCache, now) && captured == State().generation
    {
      captured := generation;
      hit := if !skipCache && cached.Some? && now < cached.value.expiresAt then Some(cached.value.value) else None;
    }

    /** The second one, after the query. */
    method Publish(captured: nat, value: T, now: Time)
      modifies this
      ensures State() == Published(old(State()), captured, value, now)
    {
      if captured == generation {
        cached := Some(Entry(now + TTL, value));
      }
    }
  }

  // ----- Every interleaving of loads and saves -----

  type Version = nat
  type LoadId = nat
  type SaveId = nat

  datatype Event =
    | Committed(version: Version)
    | SaveReturned(version: Version)
    | LoadBegan(load: LoadId, skipCache: bool)
    | LoadReturned(load: LoadId, version: Version, began: nat, at: Time, cached: bool)

  /** A load past its first locked section: where in the log it began, the generation it
      captured, and the version its query has read, if the query is back. */
  datatype Load = Load(began: nat, captured: nat, read: Option<Version>)

  datatype World = World(
    cache: Cache<Version>, now: Time, current: Version,
    loads: map<LoadId, Load>, saves: map<SaveId, Version>, log: seq<Event>)

  datatype Step =
    | Tick(elapsed: nat)
    | Begin(load: LoadId, skipCache: bool)
    | Select(load: LoadId)
    | Publish(load: LoadId)
    | Commit(save: SaveId)
    | Return(save: SaveId)
    | RemoteCommit

  const Start := World(Cache(None, 0), 0, 0, map[], map[], [])

  predicate Enabled(w: World, s: Step) {
    match s
    case Begin(l, _) => l !in w.loads
    case Select(l) => l in w.loads && w.loads[l].read.None?
    case Publish(l) => l in w.loads && w.loads[l].read.Some?
    case Commit(s) => s !in w.saves
    case Return(s) => s in w.saves
    case _ => true
  }

  function Next(w: World, s: Step): World
    requires Enabled(w, s)
  {
    match s
    case Tick(elapsed) => w.(now := w.now + elapsed)
    case Begin(l, skipCache) =>
      var began := w.log + [LoadBegan(l, skipCache)];
      var hit := w.cache.Hit(skipCache, w.now);
      if hit.Some? then w.(log := began + [LoadReturned(l, hit.value, |w.log|, w.now, true)])
      else w.(log := began, loads := w.loads[l := Load(|w.log|, w.cache.generation, None)])
    case Select(l) => w.(loads := w.loads[l := w.loads[l].(read := Some(w.current))])
    case Publish(l) =>
      var load := w.loads[l];
      w.(cache := Published(w.cache, load.captured, load.read.value, w.now),
         loads := w.loads - {l},
         log := w.log + [LoadReturned(l, load.read.value, load.began, w.now, false)])
    case Commit(s) =>
      w.(current := w.current + 1, saves := w.saves[s := w.current + 1], log := w.log + [Committed(w.current + 1)])
    case Return(s) =>
      w.(cache := Invalidated(w.cache), saves := w.saves - {s}, log := w.log + [SaveReturned(w.saves[s])])
    case RemoteCommit => w.(current := w.current + 1, log := w.log + [Committed(w.current + 1)])
  }

  predicate Leads(prior: World, s: Step, w: World) {
    Enabled(prior, s) && w == Next(prior, s)
  }

  ghost predicate Reachable(steps: seq<Step>, w: World)
    decreases |steps|
  {
    if steps == [] then w == Start
    else
      var earlier, last := steps[..|steps| - 1], steps[|steps| - 1];
      exists prior: World :: Leads(prior, last, w) && Reachable(earlier, prior)
  }

  /** Every save of this process that returned among the first `n` events wrote `v` or
      something older. */
  ghost predicate ReturnedBy(log: seq<Event>, n: nat, v: Version)
    requires n <= |log|
  {
    forall i :: 0 <= i < n && log[i].SaveReturned? ==> log[i].version <= v
  }

  ghost predicate CommittedBy(log: seq<Event>, n: nat, v: Version)
    requires n <= |log|
  {
    forall i :: 0 <= i < n && log[i].Committed? ==> log[i].version <= v
  }

  predicate BeganAt(log: seq<Event>, began: nat, load: LoadId) {
    began < |log| && log[began].LoadBegan? && log[began].load == load
  }

  /** No save returned between the start of the load and the end of the log. */
  ghost predicate QuietSince(log: seq<Event>, began: nat) {
    forall i :: began <= i < |log| ==> !log[i].SaveReturned?
  }

  ghost predicate LoadInv(w: World, id: LoadId, load: Load) {
    && BeganAt(w.log, load.began, id)
    && load.captured <= w.cache.generation
    && (load.captured == w.cache.generation ==> QuietSince(w.log, load.began))
    && (load.read.Some? ==>
          && ReturnedBy(w.log, load.began, load.read.value)
          && CommittedBy(w.log, load.began, load.read.value))
  }

  /** What a load answered, held against the log up to where it began. */
  ghost predicate AnswerInv(log: seq<Event>, k: nat)
    requires k < |log|
  {
    log[k].LoadReturned? ==>
      && log[k].began < k && BeganAt(log, log[k].began, log[k].load)
      && ReturnedBy(log, log[k].began, log[k].version)
      && (log[log[k].began].skipCache ==> CommittedBy(log, log[k].began, log[k].version))
  }

  ghost predicate Inv(w: World) {
    && ReturnedBy(w.log, |w.log|, w.current) && CommittedBy(w.log, |w.log|, w.current)
    && (w.cache.entry.Some? ==> ReturnedBy(w.log, |w.log|, w.cache.entry.value.value))
    && (forall s :: s in w.saves ==> w.saves[s] <= w.current)
    && (forall l :: l in w.loads ==> LoadInv(w, l, w.loads[l]))
    && (forall k: nat :: k < |w.log| ==> AnswerInv(w.log, k))
  }

  lemma Extends(w: World, u: World, e: Event)
    requires Inv(w) && u.log == w.log + [e]
    requires AnswerInv(u.log, |w.log|)
    ensures forall k: nat :: k < |u.log| ==> AnswerInv(u.log, k)
    ensures forall n: nat, v: Version :: n <= |w.log| && ReturnedBy(w.log, n, v) ==> ReturnedBy(u.log, n, v)
    ensures forall n: nat, v: Version :: n <= |w.log| && CommittedBy(w.log, n, v) ==> CommittedBy(u.log, n, v)
    ensures forall began: nat, l: LoadId :: BeganAt(w.log, began, l) ==> BeganAt(u.log, began, l)
    ensures !e.SaveReturned? ==> forall began: nat :: QuietSince(w.log, began) ==> QuietSince(u.log, began)
  {
    forall k: nat | k < |u.log| ensures AnswerInv(u.log, k) {
      if k < |w.log| { assert AnswerInv(w.log, k); }
    }
  }

  lemma BeginKeeps(w: World, l: LoadId, skipCache: bool)
    requires Inv(w) && Enabled(w, Begin(l, skipCache))
    ensures Inv(Next(w, Begin(l, skipCache)))
  {
    var began := w.(log := w.log + [LoadBegan(l, skipCache)]);
    Extends(w, began, LoadBegan(l, skipCache));
    var u := Next(w, Begin(l, skipCache));
    var hit := w.cache.Hit(skipCache, w.now);
    if hit.Some? {
      assert Inv(began);
      Extends(began, u, LoadReturned(l, hit.value, |w.log|, w.now, true));
    }
  }

  lemma PublishKeeps(w: World, l: LoadId)
    requires Inv(w) && Enabled(w, Publish(l))
    ensures Inv(Next(w, Publish(l)))
  {
    var load := w.loads[l];
    assert LoadInv(w, l, load);
    Extends(w, Next(w, Publish(l)), LoadReturned(l, load.read.value, load.began, w.now, false));
  }

  lemma StepKeeps(w: World, s: Step)
    requires Inv(w) && Enabled(w, s)
    ensures Inv(Next(w, s))
  {
    var u := Next(w, s);
    match s
    case Tick(_) =>
    case Begin(l, skipCache) => BeginKeeps(w, l, skipCache);
    case Select(l) => assert LoadInv(w, l, w.loads[l]);
    case Publish(l) => PublishKeeps(w, l);
    case Commit(s) => Extends(w, u, Committed(w.current + 1));
    case Return(s) => Extends(w, u, SaveReturned(w.saves[s]));
    case RemoteCommit => Extends(w, u, Committed(w.current + 1));
  }

  lemma {:induction false} RunKeeps(steps: seq<Step>, w: World)
    requires Reachable(steps, w)
    ensures Inv(w)
    decreases |steps|
  {
    if steps != [] {
      var earlier := steps[..|steps| - 1];
      var prior: World :| Leads(prior, steps[|steps| - 1], w) && Reachable(earlier, prior);
      RunKeeps(earlier, prior);
      StepKeeps(prior, steps[|steps| - 1]);
    }
  }

  /** A load that began after a save returned never answers with anything older than that
      save, whichever loads were mid-query when it returned. */
  lemma ReadsItsOwnWrites(steps: seq<Step>, w: World, i: nat, k: nat)
    requires Reachable(steps, w)
    requires i < |w.log| && k < |w.log| && w.log[i].SaveReturned? && w.log[k].LoadReturned?
    requires i < w.log[k].began
    ensures w.log[i].version <= w.log[k].version
  {
    RunKeeps(steps, w);
    assert AnswerInv(w.log, k);
  }

  /** A fresh load sees every write, on any Machine, that committed before it began. */
  lemma FreshReadsEveryCommit(steps: seq<Step>, w: World, i: nat, k: nat)
    requires Reachable(steps, w)
    requires i < |w.log| && k < |w.log| && w.log[i].Committed? && w.log[k].LoadReturned?
    requires w.log[k].began < |w.log| && w.log[w.log[k].began] == LoadBegan(w.log[k].load, true)
    requires i < w.log[k].began
    ensures w.log[i].version <= w.log[k].version
  {
    RunKeeps(steps, w);
    assert AnswerInv(w.log, k);
  }
}
