/** One iteration of ScrapeMapper.map_urls as a function on the mapper's
    state, the invariant that iteration keeps, and check_complete. */
module Mapper {
  import opened Text
  import opened Routing
  import opened Items

  /** A crawler instance: the factory that built it, how often `startup()`
      ran on it, whether its `run_loop` task was spawned, its
      `scraper_queue`, and its `complete` flag (which only the crawler sets). */
  datatype Crawler = Crawler(
    factory: Factory, startups: nat, spawned: bool, queue: seq<ScrapeItem>, complete: bool)

  /** `Ignore_Options`: the `skip_hosts` and `only_hosts` lists. */
  datatype Filters = Filters(skipHosts: seq<string>, onlyHosts: seq<string>)

  /** What map_urls reads and changes:
      - `intake`: the `url_objects_to_map` queue;
      - `registry`: `existing_crawlers`, each key bound to an instance id;
      - `crawlers`: the instances, indexed by id;
      - `registrations`: the names passed to `get_download_instance`, in order;
      - `looseFiles`: the `no_crawler` download queue;
      - `jdEnabled`, `jdReady`: JDownloader is enabled; its agent has been set up;
      - `delegated`: URLs with parent titles handed to JDownloader;
      - `unsupported`: the unsupported-URL log;
      - `halted`: an exception has ended map_urls. */
  datatype State = State(
    intake: seq<ScrapeItem>,
    registry: map<Key, nat>,
    crawlers: seq<Crawler>,
    registrations: seq<string>,
    looseFiles: seq<MediaItem>,
    jdEnabled: bool,
    jdReady: bool,
    delegated: seq<(Url, string)>,
    unsupported: seq<Url>,
    halted: bool)

  /** Which branch of map_urls an iteration took. */
  datatype Outcome =
    | Dropped
    | Skipped
    | Routed(key: Key, id: nat, created: bool)
    | KeyErrorRaised(key: Key)
    | LooseFile
    | Delegated(loggedUnsupported: bool)
    | Unsupported

  /** A freshly constructed ScrapeMapper: no crawler exists yet and the
      JDownloader agent is still its placeholder. */
  function Initial(jdEnabled: bool): State
  {
    State([], map[], [], [], [], jdEnabled, false, [], [], false)
  }

  /** Lines 268-276: skipped when some `skip_hosts` entry occurs in the host,
      or some `only_hosts` entry does not. */
  predicate IsSkipped(fl: Filters, host: string)
  {
    || (exists i :: 0 <= i < |fl.skipHosts| && Contains(host, fl.skipHosts[i]))
    || (exists i :: 0 <= i < |fl.onlyHosts| && !Contains(host, fl.onlyHosts[i]))
  }

  /** Every registry entry names one of the `n` instances. */
  predicate InRange(reg: map<Key, nat>, n: nat)
  {
    forall k :: k in reg ==> reg[k] < n
  }

  predicate RegistryInRange(s: State)
  {
    InRange(s.registry, |s.crawlers|)
  }

  /** A factory run: every key it writes is bound to instance `id`, the
      other entries stay. */
  function Install(reg: map<Key, nat>, ks: set<Key>, id: nat): (r: map<Key, nat>)
    ensures forall k :: k in r <==> k in reg || k in ks
    ensures forall k :: k in ks ==> r[k] == id
    ensures forall k :: k in reg && k !in ks ==> r[k] == reg[k]
  {
    reg + map k | k in ks :: id
  }

  function Enqueue(cr: Crawler, item: ScrapeItem): Crawler
  {
    cr.(queue := cr.queue + [item])
  }

  /** Lines 284-294: hand a routed, unskipped item to the instance for `k`,
      creating and starting that instance first when `k` is not registered.
      Reading back `existing_crawlers[key]` after the factory ran raises
      KeyError when the factory did not write `k`. */
  function Dispatch(s: State, tb: Tables, item: ScrapeItem, k: Key, name: string): (State, Outcome)
    requires RegistryInRange(s) && tb.mapped(k).Some?
  {
    if k in s.registry then
      var id := s.registry[k];
      (s.(crawlers := s.crawlers[id := Enqueue(s.crawlers[id], item)]), Routed(k, id, false))
    else
      var f := tb.mapped(k).value;
      var id := |s.crawlers|;
      var reg := Install(s.registry, Writes(tb, f), id);
      if k !in reg then
        (s.(registry := reg, crawlers := s.crawlers + [Crawler(f, 0, false, [], false)], halted := true),
         KeyErrorRaised(k))
      else
        (s.(registry := reg,
            crawlers := s.crawlers + [Crawler(f, 1, true, [item], false)],
            registrations := s.registrations + [name]),
         Routed(k, id, true))
  }

  /** Lines 297-314, for an unskipped item no table key matched. */
  function Fallback(s: State, env: Env, item: ScrapeItem, setupOk: bool): (State, Outcome)
  {
    var u := item.url;
    match env.fileOf(u.name)
    case Some(fe) =>
      (s.(registrations := s.registrations + ["no_crawler"],
          looseFiles := s.looseFiles + [MediaItem(u, u, LooseFiles, fe.0, fe.1, fe.0)]),
       LooseFile)
    case None =>
      if s.jdEnabled then
        var s1 :=
          if s.jdReady then s
          else if setupOk then s.(jdReady := true)
          else s.(jdEnabled := false, unsupported := s.unsupported + [u]);
        (s1.(delegated := s1.delegated + [(u, item.parentTitle)]), Delegated(!s.jdReady && !setupOk))
      else
        (s.(unsupported := s.unsupported + [u]), Unsupported)
  }

  /** Lines 268-314 for an item with a URL and a host: the filters, the
      trailing-slash repair, routing, and the branch the item takes. */
  function MapItem(s: State, env: Env, tb: Tables, fl: Filters, item: ScrapeItem, setupOk: bool): (State, Outcome)
    requires RegistryInRange(s) && EnvOk(env) && TablesOk(tb) && HasHost(item.url)
  {
    var skip := IsSkipped(fl, item.url.host.value);
    var it := item.(url := Normalize(env, item.url));
    var h := it.url.host.value;
    if Route(h).Some? && !skip then
      var k := TableKeys[Route(h).value];
      TableKeyInTable(Route(h).value);
      Dispatch(s, tb, it, k, tb.download(k).value)
    else if skip then (s, Skipped)
    else Fallback(s, env, it, setupOk)
  }

  /** One iteration of the map_urls loop, from taking an item off the intake
      queue to its last branch. `setupOk` is whether jdownloader_setup, if it
      runs, leaves JDownloader enabled. */
  function MapStep(s: State, env: Env, tb: Tables, fl: Filters, setupOk: bool): (State, Outcome)
    requires s.intake != [] && !s.halted && RegistryInRange(s) && EnvOk(env) && TablesOk(tb)
  {
    var item := s.intake[0];
    var s0 := s.(intake := s.intake[1..]);
    if !Truthy(item.url) || !HasHost(item.url) then (s0, Dropped)
    else MapItem(s0, env, tb, fl, item, setupOk)
  }

  /** Instance `id` was started once and its run_loop spawned, unless it is
      the instance whose factory was followed by the KeyError. */
  predicate Started(cs: seq<Crawler>, halted: bool, id: nat)
    requires id < |cs|
  {
    || (cs[id].startups == 1 && cs[id].spawned)
    || (halted && id == |cs| - 1 && cs[id].startups == 0 && !cs[id].spawned && cs[id].queue == [])
  }

  /** Every key is bound to an instance whose factory wrote it. */
  predicate Owned(reg: map<Key, nat>, cs: seq<Crawler>, tb: Tables)
    requires InRange(reg, |cs|)
  {
    forall k :: k in reg ==> k in Writes(tb, cs[reg[k]].factory)
  }

  /** Every key an instance's factory wrote is bound to that instance: the
      aliases of a factory share its instance, and a factory has at most one. */
  predicate Bound(reg: map<Key, nat>, cs: seq<Crawler>, tb: Tables)
  {
    forall id, k :: 0 <= id < |cs| && k in Writes(tb, cs[id].factory) ==> k in reg && reg[k] == id
  }

  /** The table keys of every instantiated factory are registered. */
  predicate TableCovered(reg: map<Key, nat>, cs: seq<Crawler>, tb: Tables)
  {
    forall id, k :: (0 <= id < |cs| && InTable(k) && tb.mapped(k) == Some(cs[id].factory)) ==> k in reg
  }

  predicate AllStarted(cs: seq<Crawler>, halted: bool)
  {
    forall id :: 0 <= id < |cs| ==> Started(cs, halted, id)
  }

  predicate RegInv(reg: map<Key, nat>, cs: seq<Crawler>, halted: bool, tb: Tables)
  {
    && InRange(reg, |cs|)
    && Owned(reg, cs, tb)
    && Bound(reg, cs, tb)
    && (!halted ==> TableCovered(reg, cs, tb))
    && AllStarted(cs, halted)
  }

  /** The invariant of the registry: it binds exactly the keys each
      instance's factory wrote to that instance; while map_urls runs, a table
      key is unregistered only when its factory has no instance; and every
      instance was started exactly once. */
  predicate Inv(s: State, tb: Tables)
  {
    RegInv(s.registry, s.crawlers, s.halted, tb)
  }

  /** check_complete: the intake queue is empty and every registered
      instance has finished. */
  predicate AllComplete(s: State)
    requires RegistryInRange(s)
  {
    s.intake == [] && forall k :: k in s.registry ==> s.crawlers[s.registry[k]].complete
  }

  /** What an iteration needs: an item is waiting, map_urls has not died,
      the registry names existing instances, and with_path and the tables
      behave. */
  ghost predicate CanStep(s: State, env: Env, tb: Tables)
  {
    s.intake != [] && !s.halted && RegistryInRange(s) && EnvOk(env) && TablesOk(tb)
  }

  /** The pre-state of an iteration that also meets the invariant. */
  ghost predicate Ready(s: State, env: Env, tb: Tables)
  {
    CanStep(s, env, tb) && Inv(s, tb)
  }

  /** The item an iteration works on once lines 278-279 have run. */
  function Current(s: State, env: Env): ScrapeItem
    requires s.intake != [] && EnvOk(env)
  {
    s.intake[0].(url := Normalize(env, s.intake[0].url))
  }

  /** The host of the item at the head of the intake queue. */
  function HeadHost(s: State): string
    requires s.intake != [] && HasHost(s.intake[0].url)
  {
    s.intake[0].url.host.value
  }

  /** A fresh mapper meets the invariant, whatever the tables. */
  lemma InitialInv(jdEnabled: bool, tb: Tables)
    ensures Inv(Initial(jdEnabled), tb) && RegistryInRange(Initial(jdEnabled))
  {
  }

  /** An empty or host-less URL is popped and nothing else happens. */
  lemma StepDropsHostless(s: State, env: Env, tb: Tables, fl: Filters, setupOk: bool)
    requires CanStep(s, env, tb)
    requires !Truthy(s.intake[0].url) || !HasHost(s.intake[0].url)
    ensures MapStep(s, env, tb, fl, setupOk) == (s.(intake := s.intake[1..]), Dropped)
  {
  }

  /** A skipped item is popped and reaches no crawler queue, no download
      queue, no JDownloader and no log, whether or not a key matched. */
  lemma StepSkips(s: State, env: Env, tb: Tables, fl: Filters, setupOk: bool)
    requires CanStep(s, env, tb) && Truthy(s.intake[0].url) && HasHost(s.intake[0].url)
    requires IsSkipped(fl, HeadHost(s))
    ensures MapStep(s, env, tb, fl, setupOk) == (s.(intake := s.intake[1..]), Skipped)
  {
  }

  /** A routed, unskipped item is dispatched on its key, with download_key
      the download_mapping name of that key. */
  lemma StepRoutes(s: State, env: Env, tb: Tables, fl: Filters, setupOk: bool, i: nat)
    requires CanStep(s, env, tb) && Truthy(s.intake[0].url) && HasHost(s.intake[0].url)
    requires !IsSkipped(fl, HeadHost(s)) && Route(HeadHost(s)) == Some(i)
    ensures i < |TableKeys| && InTable(TableKeys[i])
    ensures MapStep(s, env, tb, fl, setupOk) ==
      Dispatch(s.(intake := s.intake[1..]), tb, Current(s, env), TableKeys[i], tb.download(TableKeys[i]).value)
  {
    TableKeyInTable(i);
  }

  /** An unskipped item no key matches goes to the fallbacks. */
  lemma StepFallsBack(s: State, env: Env, tb: Tables, fl: Filters, setupOk: bool)
    requires CanStep(s, env, tb) && Truthy(s.intake[0].url) && HasHost(s.intake[0].url)
    requires !IsSkipped(fl, HeadHost(s)) && Route(HeadHost(s)).None?
    ensures MapStep(s, env, tb, fl, setupOk) == Fallback(s.(intake := s.intake[1..]), env, Current(s, env), setupOk)
  {
  }

  /** An item whose key is registered goes to the queue of the registered
      instance and nowhere else: no factory runs, no startup, no download
      registration. */
  lemma DispatchReuses(s: State, tb: Tables, item: ScrapeItem, k: Key, name: string)
    requires RegistryInRange(s) && tb.mapped(k).Some? && k in s.registry
    ensures var id := s.registry[k];
      && id < |s.crawlers|
      && Dispatch(s, tb, item, k, name) ==
        (s.(crawlers := s.crawlers[id := s.crawlers[id].(queue := s.crawlers[id].queue + [item])]),
         Routed(k, id, false))
  {
  }

  /** An item whose key is not registered: the factory runs and adds one
      unstarted instance; when it did not write `k`, map_urls dies with
      KeyError at once, and otherwise the new instance is started with its
      run_loop spawned, the item queued on it and `name` registered. */
  lemma DispatchMisses(s: State, tb: Tables, item: ScrapeItem, k: Key, name: string)
    requires RegistryInRange(s) && tb.mapped(k).Some? && k !in s.registry
    ensures var f := tb.mapped(k).value;
      var id := |s.crawlers|;
      var reg := Install(s.registry, Writes(tb, f), id);
      var (t, o) := Dispatch(s, tb, item, k, name);
      && (k !in reg ==>
            && o == KeyErrorRaised(k)
            && t == s.(registry := reg, crawlers := s.crawlers + [Crawler(f, 0, false, [], false)], halted := true))
      && (k in reg ==>
            && o == Routed(k, id, true)
            && t == s.(registry := reg, crawlers := s.crawlers + [Crawler(f, 1, true, [item], false)],
                       registrations := s.registrations + [name]))
  {
  }

  /** The KeyError path: when the factory of an unregistered key does not
      write that key, map_urls dies right after the factory ran. The one new
      instance is never started, spawned or given the item; no download
      instance is registered; the key stays unregistered; the earlier
      instances, the queues and the logs are untouched. */
  lemma DispatchRaises(s: State, tb: Tables, item: ScrapeItem, k: Key, name: string)
    requires RegistryInRange(s) && tb.mapped(k).Some? && k !in s.registry
    requires k !in Writes(tb, tb.mapped(k).value)
    ensures var f := tb.mapped(k).value;
      var n := |s.crawlers|;
      var (t, o) := Dispatch(s, tb, item, k, name);
      && o == KeyErrorRaised(k) && t.halted
      && k !in t.registry
      && (forall l :: l in t.registry <==> l in s.registry || l in Writes(tb, f))
      && (forall l :: l in s.registry && l !in Writes(tb, f) ==> t.registry[l] == s.registry[l])
      && |t.crawlers| == n + 1 && t.crawlers[..n] == s.crawlers
      && t.crawlers[n].factory == f && t.crawlers[n].startups == 0
      && !t.crawlers[n].spawned && t.crawlers[n].queue == []
      && t.registrations == s.registrations
      && t.intake == s.intake && t.looseFiles == s.looseFiles
      && t.delegated == s.delegated && t.unsupported == s.unsupported
      && t.jdEnabled == s.jdEnabled && t.jdReady == s.jdReady
  {
    var t := Dispatch(s, tb, item, k, name).0;
    assert t.crawlers == s.crawlers + [Crawler(tb.mapped(k).value, 0, false, [], false)];
    assert t.crawlers[..|s.crawlers|] == s.crawlers;
  }

  /** No instance exists yet for the factory of an unregistered table key. */
  lemma UnregisteredHasNoInstance(reg: map<Key, nat>, cs: seq<Crawler>, tb: Tables, k: Key)
    requires RegInv(reg, cs, false, tb) && InTable(k) && tb.mapped(k).Some? && k !in reg
    ensures forall id :: 0 <= id < |cs| ==> cs[id].factory != tb.mapped(k).value
  {
  }

  /** An item whose key is not registered, when the factory writes that key:
      the factory runs once (no instance of it existed), all keys it writes
      are bound to the one new instance and no other entry changes, that
      instance is started once with its run_loop spawned and the item as its
      only queued entry, and download_key is registered. */
  lemma DispatchCreates(s: State, tb: Tables, item: ScrapeItem, k: Key, name: string)
    requires Inv(s, tb) && !s.halted && InTable(k) && tb.mapped(k).Some? && k !in s.registry
    requires tb.writer(k) == tb.mapped(k)
    ensures var f := tb.mapped(k).value;
      var id := |s.crawlers|;
      var (t, o) := Dispatch(s, tb, item, k, name);
      && o == Routed(k, id, true)
      && (forall j :: 0 <= j < |s.crawlers| ==> s.crawlers[j].factory != f)
      && t.crawlers == s.crawlers + [Crawler(f, 1, true, [item], false)]
      && t.registry == Install(s.registry, Writes(tb, f), id)
      && k in Writes(tb, f)
      && t.registrations == s.registrations + [name]
      && t == s.(registry := t.registry, crawlers := t.crawlers, registrations := t.registrations)
  {
    UnregisteredHasNoInstance(s.registry, s.crawlers, tb, k);
  }

  /** After the JpgChurch factory ran for any of its keys, all nine aliases
      are bound to the one new instance. */
  lemma JpgChurchShared(s: State, c: Catalog, item: ScrapeItem, k: Key, name: string)
    requires Inv(s, TablesOf(c)) && !s.halted && InTable(k) && MappedFactory(k) == JpgChurch
    requires k !in s.registry
    ensures var t := Dispatch(s, TablesOf(c), item, k, name).0;
      forall l ::
        (l in {KJpgChurch, KJpgHomes, KJpgFish, KJpgFishing, KJpgPet, KJpegPet, KJpg1Su, KJpg2Su, KJpg3Su})
        ==> l in t.registry && t.registry[l] == |s.crawlers|
  {
    OwnKeyWritten(c, k);
    JpgChurchAliases(c);
    DispatchCreates(s, TablesOf(c), item, k, name);
  }

  /** After the Reddit factory ran for either of its keys, `reddit` and
      `redd.it` are bound to the one new instance. */
  lemma RedditShared(s: State, c: Catalog, item: ScrapeItem, k: Key, name: string)
    requires Inv(s, TablesOf(c)) && !s.halted && InTable(k) && MappedFactory(k) == Reddit
    requires k !in s.registry
    ensures var t := Dispatch(s, TablesOf(c), item, k, name).0;
      && KReddit in t.registry && t.registry[KReddit] == |s.crawlers|
      && KReddIt in t.registry && t.registry[KReddIt] == |s.crawlers|
  {
    OwnKeyWritten(c, k);
    RedditAliases(c);
    DispatchCreates(s, TablesOf(c), item, k, name);
  }

  /** The finding: under the source's factories, dispatching on the
      unregistered key `nudostar.com` raises KeyError after the NudoStar
      factory ran, leaving behind an instance, bound to `nudostar`, that was
      never started. */
  lemma NudoStarRaises(s: State, item: ScrapeItem, name: string)
    requires RegistryInRange(s) && KNudostarCom !in s.registry
    ensures var (t, o) := Dispatch(s, TablesOf(AsWritten), item, KNudostarCom, name);
      && o == KeyErrorRaised(KNudostarCom)
      && t.halted
      && t.crawlers == s.crawlers + [Crawler(NudoStar, 0, false, [], false)]
      && KNudostar in t.registry && t.registry[KNudostar] == |s.crawlers|
      && t.registrations == s.registrations
  {
    NudoStarMissesOwnKey();
    NudoStarKeys(AsWritten);
  }

  /** The finding end to end: an unskipped item routed to an unregistered
      table key that its factory does not write ends map_urls with KeyError;
      NudoStarMissesOwnKey shows the source's `nudostar.com` is such a key. */
  lemma StepRaisesOnUnwrittenKey(s: State, env: Env, tb: Tables, fl: Filters, setupOk: bool, i: nat)
    requires CanStep(s, env, tb) && Truthy(s.intake[0].url) && HasHost(s.intake[0].url)
    requires !IsSkipped(fl, HeadHost(s)) && Route(HeadHost(s)) == Some(i)
    requires i < |TableKeys| && TableKeys[i] !in s.registry && tb.mapped(TableKeys[i]).Some?
    requires TableKeys[i] !in Writes(tb, tb.mapped(TableKeys[i]).value)
    ensures var (t, o) := MapStep(s, env, tb, fl, setupOk);
      o == KeyErrorRaised(TableKeys[i]) && t.halted && t.intake == s.intake[1..]
  {
    StepRoutes(s, env, tb, fl, setupOk, i);
    DispatchMisses(s.(intake := s.intake[1..]), tb, Current(s, env), TableKeys[i], tb.download(TableKeys[i]).value);
  }

  /** With the NudoStar factory corrected, dispatch never raises KeyError. */
  lemma CorrectedNeverRaises(s: State, item: ScrapeItem, k: Key, name: string)
    requires RegistryInRange(s) && InTable(k)
    ensures !Dispatch(s, TablesOf(Corrected), item, k, name).1.KeyErrorRaised?
  {
    OwnKeyWritten(Corrected, k);
  }

  /** The fallbacks leave the registry, the instances and the intake alone,
      and take exactly one of three paths: a loose file when the name has
      an extension; else JDownloader when enabled, with an unsupported-log
      entry only when the lazy setup ran and left JDownloader disabled; else
      the unsupported log. */
  lemma FallbackCases(s: State, env: Env, item: ScrapeItem, setupOk: bool)
    ensures var u := item.url;
      var (t, o) := Fallback(s, env, item, setupOk);
      && t.registry == s.registry && t.crawlers == s.crawlers && t.halted == s.halted
      && t.intake == s.intake
      && (HasExtension(env, u) ==>
            var (fname, ext) := env.fileOf(u.name).value;
            && o == LooseFile
            && t == s.(registrations := s.registrations + ["no_crawler"],
                       looseFiles := s.looseFiles + [MediaItem(u, u, LooseFiles, fname, ext, fname)]))
      && (!HasExtension(env, u) && s.jdEnabled ==>
            && o == Delegated(!s.jdReady && !setupOk)
            && t.delegated == s.delegated + [(u, item.parentTitle)]
            && t.unsupported == (if !s.jdReady && !setupOk then s.unsupported + [u] else s.unsupported)
            && t.registrations == s.registrations && t.looseFiles == s.looseFiles
            && t.jdReady == (s.jdReady || setupOk) && t.jdEnabled == (s.jdReady || setupOk))
      && (!HasExtension(env, u) && !s.jdEnabled ==>
            o == Unsupported && t == s.(unsupported := s.unsupported + [u]))
  {
  }

  /** Queueing onto an existing instance keeps the invariant. */
  lemma EnqueueKeepsInv(reg: map<Key, nat>, cs: seq<Crawler>, tb: Tables, id: nat, item: ScrapeItem)
    requires RegInv(reg, cs, false, tb) && id < |cs|
    ensures RegInv(reg, cs[id := Enqueue(cs[id], item)], false, tb)
  {
    var cs' := cs[id := Enqueue(cs[id], item)];
    assert forall j :: 0 <= j < |cs| ==> cs'[j].factory == cs[j].factory;
    assert forall j :: 0 <= j < |cs| ==> Started(cs, false, j) ==> Started(cs', false, j);
  }

  /** A factory run for a factory with no instance yet binds each written
      key to its writer's instance, old or new. */
  lemma InstallKeepsBound(reg: map<Key, nat>, cs: seq<Crawler>, tb: Tables, cr: Crawler)
    requires Bound(reg, cs, tb)
    requires forall j :: 0 <= j < |cs| ==> cs[j].factory != cr.factory
    ensures Bound(Install(reg, Writes(tb, cr.factory), |cs|), cs + [cr], tb)
  {
    var f := cr.factory;
    var reg' := Install(reg, Writes(tb, f), |cs|);
    var cs' := cs + [cr];
    forall j, l | 0 <= j < |cs'| && l in Writes(tb, cs'[j].factory)
      ensures l in reg' && reg'[l] == j
    {
      if j < |cs| {
        assert cs'[j] == cs[j];
        assert l !in Writes(tb, f);
      }
    }
  }

  /** A factory run binds keys only to instances whose factory wrote them. */
  lemma InstallKeepsOwned(reg: map<Key, nat>, cs: seq<Crawler>, tb: Tables, cr: Crawler)
    requires InRange(reg, |cs|) && Owned(reg, cs, tb)
    ensures InRange(Install(reg, Writes(tb, cr.factory), |cs|), |cs| + 1)
    ensures Owned(Install(reg, Writes(tb, cr.factory), |cs|), cs + [cr], tb)
  {
    var reg' := Install(reg, Writes(tb, cr.factory), |cs|);
    var cs' := cs + [cr];
    forall l | l in reg' ensures reg'[l] < |cs'| && l in Writes(tb, cs'[reg'[l]].factory) {
      if l !in Writes(tb, cr.factory) {
        assert cs'[reg[l]] == cs[reg[l]];
      }
    }
  }

  /** The factory whose key got registered has all its table keys registered. */
  lemma InstallCoversTable(reg: map<Key, nat>, cs: seq<Crawler>, tb: Tables, k: Key, cr: Crawler)
    requires RegInv(reg, cs, false, tb) && TablesOk(tb) && InTable(k) && tb.mapped(k) == Some(cr.factory)
    requires k in Writes(tb, cr.factory)
    ensures TableCovered(Install(reg, Writes(tb, cr.factory), |cs|), cs + [cr], tb)
  {
    var reg' := Install(reg, Writes(tb, cr.factory), |cs|);
    var cs' := cs + [cr];
    forall j, l | 0 <= j < |cs'| && InTable(l) && tb.mapped(l) == Some(cs'[j].factory)
      ensures l in reg'
    {
      if j < |cs| {
        assert cs'[j] == cs[j];
      } else {
        assert tb.writer(l) == tb.mapped(l);
      }
    }
  }

  /** Adding the instance `cr` of the factory of an unregistered key `k`
      keeps the invariant: started when the factory wrote `k`, and left
      unstarted as the last instance, with map_urls dead, when it did not. */
  lemma InstallKeepsInv(reg: map<Key, nat>, cs: seq<Crawler>, tb: Tables, k: Key, cr: Crawler, halted: bool)
    requires RegInv(reg, cs, false, tb) && TablesOk(tb) && InTable(k) && k !in reg
    requires tb.mapped(k) == Some(cr.factory)
    requires k in Writes(tb, cr.factory) ==> !halted && cr.startups == 1 && cr.spawned
    requires k !in Writes(tb, cr.factory) ==> halted && cr.startups == 0 && !cr.spawned && cr.queue == []
    ensures RegInv(Install(reg, Writes(tb, cr.factory), |cs|), cs + [cr], halted, tb)
  {
    var cs' := cs + [cr];
    UnregisteredHasNoInstance(reg, cs, tb, k);
    InstallKeepsBound(reg, cs, tb, cr);
    InstallKeepsOwned(reg, cs, tb, cr);
    if !halted {
      InstallCoversTable(reg, cs, tb, k, cr);
    }
    forall j | 0 <= j < |cs'| ensures Started(cs', halted, j) {
      if j < |cs| {
        assert cs'[j] == cs[j] && Started(cs, false, j);
      }
    }
  }

  /** Creating an instance for an unregistered key keeps the invariant,
      whether or not the factory wrote that key. */
  lemma CreateKeepsInv(s: State, tb: Tables, item: ScrapeItem, k: Key, name: string)
    requires Inv(s, tb) && !s.halted && TablesOk(tb) && InTable(k) && k !in s.registry
    ensures Inv(Dispatch(s, tb, item, k, name).0, tb)
  {
    var t := Dispatch(s, tb, item, k, name).0;
    var cr := t.crawlers[|s.crawlers|];
    assert t.crawlers == s.crawlers + [cr];
    InstallKeepsInv(s.registry, s.crawlers, tb, k, cr, t.halted);
  }

  /** Dispatching keeps the invariant, on every branch. */
  lemma DispatchKeepsInv(s: State, tb: Tables, item: ScrapeItem, k: Key, name: string)
    requires Inv(s, tb) && !s.halted && TablesOk(tb) && InTable(k)
    ensures Inv(Dispatch(s, tb, item, k, name).0, tb)
  {
    if k in s.registry {
      EnqueueKeepsInv(s.registry, s.crawlers, tb, s.registry[k], item);
    } else {
      CreateKeepsInv(s, tb, item, k, name);
    }
  }

  /** Every iteration keeps the invariant. */
  lemma StepKeepsInv(s: State, env: Env, tb: Tables, fl: Filters, setupOk: bool)
    requires Ready(s, env, tb)
    ensures Inv(MapStep(s, env, tb, fl, setupOk).0, tb)
  {
    var s0 := s.(intake := s.intake[1..]);
    assert Inv(s0, tb);
    if Truthy(s.intake[0].url) && HasHost(s.intake[0].url) && !IsSkipped(fl, HeadHost(s)) {
      match Route(HeadHost(s))
      case Some(i) =>
        StepRoutes(s, env, tb, fl, setupOk, i);
        DispatchKeepsInv(s0, tb, Current(s, env), TableKeys[i], tb.download(TableKeys[i]).value);
      case None =>
        StepFallsBack(s, env, tb, fl, setupOk);
        FallbackCases(s0, env, Current(s, env), setupOk);
    }
  }

  /** Mapping the same item twice in a row runs its factory at most once:
      the second time the instance the first time used is reused. */
  lemma SecondVisitReuses(s: State, env: Env, tb: Tables, fl: Filters, ok1: bool, ok2: bool)
    requires Ready(s, env, tb) && |s.intake| >= 2 && s.intake[1] == s.intake[0]
    requires MapStep(s, env, tb, fl, ok1).1.Routed?
    ensures var (t, o) := MapStep(s, env, tb, fl, ok1);
      && Ready(t, env, tb)
      && MapStep(t, env, tb, fl, ok2).1 == Routed(o.key, o.id, false)
      && |MapStep(t, env, tb, fl, ok2).0.crawlers| == |t.crawlers|
  {
    StepKeepsInv(s, env, tb, fl, ok1);
    var (t, o) := MapStep(s, env, tb, fl, ok1);
    var i := Route(HeadHost(s)).value;
    StepRoutes(s, env, tb, fl, ok1, i);
    assert t.intake[0] == s.intake[0];
    StepRoutes(t, env, tb, fl, ok2, i);
  }

  /** check_complete tells the truth about every instance ever created,
      not only the registered ones: it holds exactly when no item waits and
      every crawler instance is complete. This holds because every factory
      writes at least one key (Home), and Bound keeps that key bound to the
      factory's instance, even to the one a KeyError left behind. */
  lemma CompleteMeansAllDone(s: State, c: Catalog)
    requires Inv(s, TablesOf(c))
    ensures RegistryInRange(s)
    ensures AllComplete(s) <==>
      s.intake == [] && forall id :: 0 <= id < |s.crawlers| ==> s.crawlers[id].complete
  {
    var tb := TablesOf(c);
    if AllComplete(s) {
      forall id | 0 <= id < |s.crawlers| ensures s.crawlers[id].complete {
        var k := Home(c, s.crawlers[id].factory);
        assert k in Writes(tb, s.crawlers[id].factory);
        assert k in s.registry && s.registry[k] == id;
      }
    }
  }
}
