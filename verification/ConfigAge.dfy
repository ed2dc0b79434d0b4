/**
 How old a cached settings answer can be, over every run of `ConfigCache`, and when there
 is one.
 */
module ConfigAge {
  import opened Options
  import opened ConfigCache

  /** Answer `j` came from a query that read `v`, and no save of this process has returned
      since. */
  ghost predicate PublishedBy(log: seq<Event>, j: nat, to: nat, v: Version)
    requires to <= |log|
  {
    && j < to && log[j].LoadReturned? && !log[j].cached && log[j].version == v
    && forall i :: j < i < to ==> !log[i].SaveReturned?
  }

  /** Answer `k`, if it came from the cache, repeats one less than the TTL old. */
  ghost predicate Recent(log: seq<Event>, k: nat)
    requires k < |log|
  {
    log[k].LoadReturned? && log[k].cached ==>
      && log[k].began + 1 == k && log[log[k].began] == LoadBegan(log[k].load, false)
      && exists j: nat ::
           PublishedBy(log, j, log[k].began, log[k].version) && log[j].at <= log[k].at < log[j].at + TTL
  }

  /** What is cached was published when its expiry says. */
  ghost predicate EntryAged(log: seq<Event>, e: Entry<Version>, now: Time) {
    e.expiresAt <= now + TTL && exists j: nat :: PublishedBy(log, j, |log|, e.value) && log[j].at + TTL == e.expiresAt
  }

  ghost predicate AgeInv(w: World) {
    && (w.cache.entry.Some? ==> EntryAged(w.log, w.cache.entry.value, w.now))
    && (forall k: nat :: k < |w.log| ==> Recent(w.log, k))
    && (forall l :: l in w.loads ==> w.loads[l].began <= |w.log|)
    && (forall l :: l in w.loads && QuietSince(w.log, w.loads[l].began) ==> w.loads[l].captured == w.cache.generation)
  }

  lemma RecentStays(log: seq<Event>, more: seq<Event>, k: nat)
    requires k < |log| && Recent(log, k)
    ensures Recent(log + more, k)
  {
    var all := log + more;
    if log[k].LoadReturned? && log[k].cached {
      var j: nat :| PublishedBy(log, j, log[k].began, log[k].version) && log[j].at <= log[k].at < log[j].at + TTL;
      assert PublishedBy(all, j, all[k].began, all[k].version);
    }
  }

  lemma LogsOn(log: seq<Event>, more: seq<Event>)
    requires forall k: nat :: k < |log| ==> Recent(log, k)
    ensures forall k: nat :: k < |log| ==> Recent(log + more, k)
    ensures forall began: nat :: began <= |log| && QuietSince(log + more, began) ==> QuietSince(log, began)
  {
    hide Recent;
    var all := log + more;
    forall k: nat | k < |log| ensures Recent(all, k) { RecentStays(log, more, k); }
    forall began: nat | began <= |log| && QuietSince(all, began) ensures QuietSince(log, began) {
      forall i | began <= i < |log| ensures !log[i].SaveReturned? { assert all[i] == log[i]; }
    }
  }

  lemma EntryStays(log: seq<Event>, e: Event, entry: Entry<Version>, now: Time)
    requires EntryAged(log, entry, now) && !e.SaveReturned?
    ensures EntryAged(log + [e], entry, now)
  {
    var j: nat :| PublishedBy(log, j, |log|, entry.value) && log[j].at + TTL == entry.expiresAt;
    assert PublishedBy(log + [e], j, |log + [e]|, entry.value);
  }

  /** Something is logged that neither answers a load nor returns a save. */
  lemma PassingBy(w: World, u: World, e: Event)
    requires AgeInv(w) && u.log == w.log + [e] && !e.SaveReturned? && (e.LoadReturned? ==> Recent(u.log, |w.log|))
    requires u.cache == w.cache && u.now == w.now && u.loads == w.loads
    ensures AgeInv(u)
  {
    if !e.LoadReturned? { assert Recent(u.log, |w.log|); }
    hide Recent, EntryAged;
    LogsOn(w.log, [e]);
    if w.cache.entry.Some? { EntryStays(w.log, e, w.cache.entry.value, w.now); }
  }

  lemma HitIsRecent(w: World, l: LoadId)
    requires w.cache.entry.Some? && EntryAged(w.log, w.cache.entry.value, w.now) && w.now < w.cache.entry.value.expiresAt
    ensures Recent(w.log + [LoadBegan(l, false), LoadReturned(l, w.cache.entry.value.value, |w.log|, w.now, true)], |w.log| + 1)
  {
    var e := w.cache.entry.value;
    var j: nat :| PublishedBy(w.log, j, |w.log|, e.value) && w.log[j].at + TTL == e.expiresAt;
    assert PublishedBy(w.log + [LoadBegan(l, false), LoadReturned(l, e.value, |w.log|, w.now, true)], j, |w.log|, e.value);
  }

  lemma BeginAges(w: World, l: LoadId, skipCache: bool)
    requires AgeInv(w) && Enabled(w, Begin(l, skipCache))
    ensures AgeInv(Next(w, Begin(l, skipCache)))
  {
    hide EntryAged;
    var began := w.(log := w.log + [LoadBegan(l, skipCache)]);
    var u := Next(w, Begin(l, skipCache));
    PassingBy(w, began, LoadBegan(l, skipCache));
    var hit := w.cache.Hit(skipCache, w.now);
    if hit.Some? {
      HitIsRecent(w, l);
      var answer := LoadReturned(l, hit.value, |w.log|, w.now, true);
      assert began.log + [answer] == w.log + [LoadBegan(l, false), answer];
      PassingBy(began, u, answer);
    }
  }

  lemma PublishAges(w: World, l: LoadId)
    requires AgeInv(w) && Enabled(w, Publish(l))
    ensures AgeInv(Next(w, Publish(l)))
  {
    var load := w.loads[l];
    var u := Next(w, Publish(l));
    var e := LoadReturned(l, load.read.value, load.began, w.now, false);
    var logged := w.(log := w.log + [e]);
    PassingBy(w, logged, e);
    assert PublishedBy(u.log, |w.log|, |u.log|, load.read.value);
  }

  lemma ReturnAges(w: World, s: SaveId)
    requires AgeInv(w) && Enabled(w, Return(s))
    ensures AgeInv(Next(w, Return(s)))
  {
    var u := Next(w, Return(s));
    LogsOn(w.log, [SaveReturned(w.saves[s])]);
    forall l | l in u.loads ensures !QuietSince(u.log, u.loads[l].began) {
      assert u.log[|w.log|].SaveReturned?;
    }
  }

  lemma StepAges(w: World, s: Step)
    requires AgeInv(w) && Enabled(w, s)
    ensures AgeInv(Next(w, s))
  {
    hide Recent, QuietSince;
    match s
    case Tick(_) =>
    case Begin(l, skipCache) => BeginAges(w, l, skipCache);
    case Select(_) =>
    case Publish(l) => PublishAges(w, l);
    case Commit(id) => PassingBy(w, w.(log := w.log + [Committed(w.current + 1)]), Committed(w.current + 1));
    case Return(id) => ReturnAges(w, id);
    case RemoteCommit => PassingBy(w, w.(log := w.log + [Committed(w.current + 1)]), Committed(w.current + 1));
  }

  lemma {:induction false} RunAges(steps: seq<Step>, w: World)
    requires Reachable(steps, w)
    ensures AgeInv(w)
    decreases |steps|
  {
    hide AgeInv, Enabled, Next;
    if steps != [] {
      var earlier := steps[..|steps| - 1];
      var prior: World :| Leads(prior, steps[|steps| - 1], w) && Reachable(earlier, prior);
      RunAges(earlier, prior);
      StepAges(prior, steps[|steps| - 1]);
    } else {
      StartAges();
    }
  }

  lemma StartAges()
    ensures AgeInv(Start)
  {
  }

  /** A load that is answered without a query is one that may be, and its answer is one a
      query of this process published less than the TTL before, with no save having
      returned since. */
  lemma CachedAnswersAreRecent(steps: seq<Step>, w: World, k: nat)
    requires Reachable(steps, w) && k < |w.log| && w.log[k].LoadReturned? && w.log[k].cached
    ensures 0 < k && w.log[k - 1] == LoadBegan(w.log[k].load, false)
    ensures exists j: nat ::
              PublishedBy(w.log, j, k - 1, w.log[k].version) && w.log[j].at <= w.log[k].at < w.log[j].at + TTL
  {
    RunAges(steps, w);
    hide PublishedBy;
    assert Recent(w.log, k);
  }

  /** And there is one to be had: a query that no save returned behind is published, and
      for the length of the TTL every load that may be is answered with it at once. */
  lemma PublishedAnswersAreReused(steps: seq<Step>, w: World, l: LoadId, elapsed: nat, next: LoadId)
    requires Reachable(steps, w) && Enabled(w, Publish(l)) && QuietSince(w.log, w.loads[l].began)
    requires elapsed < TTL && next !in w.loads
    ensures var u := Next(Next(w, Publish(l)), Tick(elapsed));
            && Enabled(u, Begin(next, false))
            && Next(u, Begin(next, false)).log ==
               u.log + [LoadBegan(next, false), LoadReturned(next, w.loads[l].read.value, |u.log|, w.now + elapsed, true)]
  {
    RunAges(steps, w);
    var u := Next(Next(w, Publish(l)), Tick(elapsed));
    var a, b := LoadBegan(next, false), LoadReturned(next, w.loads[l].read.value, |u.log|, w.now + elapsed, true);
    assert u.log + [a] + [b] == u.log + [a, b];
  }
}
