/** ScrapeMapper itself: the object whose fields map_urls, load_links and
    the factories update, each method proved against the functions of the
    Mapper and Items modules. */
module Scraper {
  import opened Text
  import opened Links
  import opened Routing
  import opened Items
  import opened Mapper

  /** `next((key for key in keys if key in host), None)`, as an index. */
  method FirstKey(keys: seq<Key>, host: string) returns (r: Option<nat>)
    ensures r == FirstMatch(keys, host)
  {
    var i := 0;
    while i < |keys|
      invariant 0 <= i <= |keys|
      invariant FirstMatchFrom(keys, host, i) == FirstMatch(keys, host)
      decreases |keys| - i
    {
      if Contains(host, KeyText(keys[i])) {
        return Some(i);
      }
      i := i + 1;
    }
    return None;
  }

  /** `list(filter(None, links))`. */
  method Truthful(links: seq<Url>) returns (kept: seq<Url>)
    ensures kept == KeepTruthy(links)
  {
    kept := [];
    var j := 0;
    while j < |links|
      invariant 0 <= j <= |links|
      invariant kept == KeepTruthy(links[..j])
      decreases |links| - j
    {
      assert links[..j + 1][..j] == links[..j];
      if Truthy(links[j]) {
        kept := kept + [links[j]];
      }
      j := j + 1;
    }
    assert links[..|links|] == links;
  }

  /** `URL(link)` for each link, in order. */
  method ParseLinks(env: Env, texts: seq<string>) returns (urls: seq<Url>)
    ensures urls == ParseAll(env, texts)
  {
    urls := [];
    var i := 0;
    while i < |texts|
      invariant 0 <= i <= |texts|
      invariant |urls| == i
      invariant forall k :: 0 <= k < i ==> urls[k] == env.parse(texts[k])
      decreases |texts| - i
    {
      urls := urls + [env.parse(texts[i])];
      i := i + 1;
    }
  }

  /** `ScrapeItem(url=link, parent_title="")` for each link, in order. */
  method ItemsOf(links: seq<Url>) returns (items: seq<ScrapeItem>)
    ensures items == AsItems(links)
  {
    items := [];
    var n := 0;
    while n < |links|
      invariant 0 <= n <= |links|
      invariant items == AsItems(links[..n])
      decreases |links| - n
    {
      assert AsItems(links[..n + 1]) == AsItems(links[..n]) + [ScrapeItem(links[n], "")];
      items := items + [ScrapeItem(links[n], "")];
      n := n + 1;
    }
    assert links[..|links|] == links;
  }

  class ScrapeMapper {
    /** The `url_objects_to_map` queue. */
    var intake: seq<ScrapeItem>
    /** `existing_crawlers`, each key bound to an index into `crawlers`. */
    var registry: map<Key, nat>
    var crawlers: seq<Crawler>
    /** The names passed to `get_download_instance`, in order. */
    var registrations: seq<string>
    /** The `no_crawler` download queue. */
    var looseFiles: seq<MediaItem>
    var jdEnabled: bool
    /** The JDownloader agent is no longer its dataclass Field placeholder. */
    var jdReady: bool
    var delegated: seq<(Url, string)>
    /** The unsupported-URL log. */
    var unsupported: seq<Url>
    /** An exception escaped map_urls, which is then no longer running. */
    var halted: bool
    var complete: bool
    const env: Env
    const tables: Tables
    /** `Ignore_Options` of the settings. */
    const filters: Filters

    function Snapshot(): State
      reads this
    {
      State(intake, registry, crawlers, registrations, looseFiles,
            jdEnabled, jdReady, delegated, unsupported, halted)
    }

    ghost predicate Valid()
      reads this
    {
      Inv(Snapshot(), tables) && EnvOk(env) && TablesOk(tables)
    }

    /** Lines 24-52: both tables, no crawler instance yet, the JDownloader
        agent still a placeholder. */
    constructor (env: Env, catalog: Catalog, filters: Filters, jdEnabled: bool)
      requires EnvOk(env)
      ensures Snapshot() == Initial(jdEnabled) && !complete
      ensures this.env == env && tables == TablesOf(catalog) && this.filters == filters
      ensures Valid()
    {
      intake := [];
      registry := map[];
      crawlers := [];
      registrations := [];
      looseFiles := [];
      this.jdEnabled := jdEnabled;
      jdReady := false;
      delegated := [];
      unsupported := [];
      halted := false;
      complete := false;
      this.env := env;
      tables := TablesOf(catalog);
      this.filters := filters;
      TablesOfOk(catalog);
      InitialInv(jdEnabled, TablesOf(catalog));
    }

    /** Lines 268-276: both filter loops, each stopping at its first hit. */
    method SkipCheck(host: string) returns (skip: bool)
      ensures skip == IsSkipped(filters, host)
    {
      skip := false;
      var i := 0;
      while i < |filters.skipHosts|
        invariant 0 <= i <= |filters.skipHosts|
        invariant forall j :: 0 <= j < i ==> !Contains(host, filters.skipHosts[j])
        decreases |filters.skipHosts| - i
      {
        if Contains(host, filters.skipHosts[i]) {
          skip := true;
          break;
        }
        i := i + 1;
      }
      var n := 0;
      while n < |filters.onlyHosts|
        invariant 0 <= n <= |filters.onlyHosts|
        invariant forall j :: 0 <= j < n ==> Contains(host, filters.onlyHosts[j])
        decreases |filters.onlyHosts| - n
      {
        if !Contains(host, filters.onlyHosts[n]) {
          skip := true;
          break;
        }
        n := n + 1;
      }
    }

    /** Lines 210-221: the scanner's matches, each parsed as a URL. */
    method RegexLinks(line: string) returns (urls: seq<Url>)
      ensures urls == LineLinks(env, line)
    {
      var texts := ScanLinks(line);
      urls := ParseLinks(env, texts);
    }

    /** Lines 226-229: the links of every line of the input file, in order. */
    method FileLinksOf(lines: seq<string>) returns (links: seq<Url>)
      ensures links == FileLinks(env, lines)
    {
      links := [];
      var i := 0;
      while i < |lines|
        invariant 0 <= i <= |lines|
        invariant links == FileLinks(env, lines[..i])
        decreases |lines| - i
      {
        var found := RegexLinks(lines[i]);
        assert lines[..i + 1][..i] == lines[..i];
        links := links + found;
        i := i + 1;
      }
      assert lines[..|lines|] == lines;
    }

    /** Lines 223-237: the links of every line of the input file, then the
        argument links, the falsy ones filtered out, each queued as an item
        with an empty parent title. Nothing else changes. */
    method LoadLinks(lines: seq<string>, args: seq<Url>)
      modifies this
      ensures Snapshot() == old(Snapshot()).(intake := old(intake) + IngestItems(env, lines, args))
      ensures complete == old(complete)
    {
      var links := FileLinksOf(lines);
      links := links + args;
      var kept := Truthful(links);
      var items := ItemsOf(kept);
      intake := intake + items;
    }

    /** A factory method: one new, unstarted instance of `f`, and every key
        the method writes bound to it. */
    method RunFactory(f: Factory)
      modifies this
      ensures Snapshot() == old(Snapshot()).(
        registry := Install(old(registry), Writes(tables, f), |old(crawlers)|),
        crawlers := old(crawlers) + [Crawler(f, 0, false, [], false)])
      ensures complete == old(complete)
    {
      registry := Install(registry, Writes(tables, f), |crawlers|);
      crawlers := crawlers + [Crawler(f, 0, false, [], false)];
    }

    /** Line 292 for a registered key: the item goes onto the queue of the
        instance bound to `k`. */
    method QueueOnExisting(item: ScrapeItem, k: Key) returns (o: Outcome)
      requires RegistryInRange(Snapshot()) && k in registry
      modifies this
      ensures Snapshot() == old(Snapshot()).(crawlers :=
        old(crawlers)[old(registry)[k] := Enqueue(old(crawlers)[old(registry)[k]], item)])
      ensures o == Routed(k, old(registry)[k], false)
      ensures complete == old(complete)
    {
      var id := registry[k];
      crawlers := crawlers[id := Enqueue(crawlers[id], item)];
      o := Routed(k, id, false);
    }

    /** Lines 286-292 for an unregistered key: run the factory, then (unless
        reading `k` back raises KeyError) start the instance, register its
        download instance, spawn its run_loop and queue the item on it. */
    method CreateAndQueue(item: ScrapeItem, k: Key, name: string) returns (o: Outcome)
      requires RegistryInRange(Snapshot()) && tables.mapped(k).Some? && k !in registry
      modifies this
      ensures (Snapshot(), o) == Dispatch(old(Snapshot()), tables, item, k, name)
      ensures complete == old(complete)
    {
      DispatchMisses(Snapshot(), tables, item, k, name);
      var id := |crawlers|;
      RunFactory(tables.mapped(k).value);
      if k !in registry {
        halted := true;
        return KeyErrorRaised(k);
      }
      assert registry[k] == id;
      var cr := crawlers[id];
      cr := cr.(startups := cr.startups + 1);
      registrations := registrations + [name];
      cr := cr.(spawned := true);
      cr := Enqueue(cr, item);
      assert cr.queue == [item];
      crawlers := crawlers[id := cr];
      assert crawlers == old(crawlers) + [cr];
      o := Routed(k, id, true);
    }

    /** Lines 284-294 on the object: create and start the instance when `k`
        is unregistered, and queue the item on the instance bound to `k`. */
    method DispatchItem(item: ScrapeItem, k: Key, name: string) returns (o: Outcome)
      requires RegistryInRange(Snapshot()) && tables.mapped(k).Some?
      modifies this
      ensures (Snapshot(), o) == Dispatch(old(Snapshot()), tables, item, k, name)
      ensures complete == old(complete)
    {
      if k in registry {
        o := QueueOnExisting(item, k);
      } else {
        o := CreateAndQueue(item, k, name);
      }
    }

    /** Lines 297-314 on the object. */
    method FallbackItem(item: ScrapeItem, setupOk: bool) returns (o: Outcome)
      modifies this
      ensures (Snapshot(), o) == Fallback(old(Snapshot()), env, item, setupOk)
      ensures complete == old(complete)
    {
      var u := item.url;
      if env.fileOf(u.name).Some? {
        var (fname, ext) := env.fileOf(u.name).value;
        registrations := registrations + ["no_crawler"];
        looseFiles := looseFiles + [MediaItem(u, u, LooseFiles, fname, ext, fname)];
        o := LooseFile;
      } else if jdEnabled {
        var logged := false;
        if !jdReady {
          if setupOk {
            jdReady := true;
          } else {
            jdEnabled := false;
            unsupported := unsupported + [u];
            logged := true;
          }
        }
        delegated := delegated + [(u, item.parentTitle)];
        o := Delegated(logged);
      } else {
        unsupported := unsupported + [u];
        o := Unsupported;
      }
    }

    /** Lines 268-314 on the object, for an item with a URL and a host. */
    method MapItem(item: ScrapeItem, setupOk: bool) returns (o: Outcome)
      requires RegistryInRange(Snapshot()) && EnvOk(env) && TablesOk(tables) && HasHost(item.url)
      modifies this
      ensures (Snapshot(), o) == Mapper.MapItem(old(Snapshot()), env, tables, filters, item, setupOk)
      ensures complete == old(complete)
    {
      var skip := SkipCheck(item.url.host.value);
      var url := item.url;
      if EndsWith(url.text, "/") {
        url := env.withPath(url, DropLast(url.path));
      }
      var it := item.(url := url);
      var host := Lower(url.host.value);
      var key := FirstKey(TableKeys, host);
      var downloadIndex := FirstKey(TableKeys, host);
      var downloadKey: Option<string> := None;
      if downloadIndex.Some? {
        TableKeyInTable(downloadIndex.value);
        downloadKey := tables.download(TableKeys[downloadIndex.value]);
      }
      if key.Some? && !skip {
        var k := TableKeys[key.value];
        o := DispatchItem(it, k, downloadKey.value);
      } else if skip {
        o := Skipped;
      } else {
        o := FallbackItem(it, setupOk);
      }
    }

    /** One iteration of map_urls (lines 259-314). `setupOk` is whether
        jdownloader_setup, should it run, leaves JDownloader enabled. */
    method Step(setupOk: bool) returns (o: Outcome)
      requires Valid() && intake != [] && !halted
      modifies this
      ensures (Snapshot(), o) == MapStep(old(Snapshot()), env, tables, filters, setupOk)
      ensures Valid() && !complete
    {
      StepKeepsInv(Snapshot(), env, tables, filters, setupOk);
      complete := false;
      var item := intake[0];
      intake := intake[1..];
      if !Truthy(item.url) || !HasHost(item.url) {
        return Dropped;
      }
      o := MapItem(item, setupOk);
    }

    /** Lines 249-255: true exactly when no item waits to be mapped and every
        registered crawler is complete. */
    method CheckComplete() returns (r: bool)
      requires InRange(registry, |crawlers|)
      ensures r == AllComplete(Snapshot())
    {
      if intake != [] {
        return false;
      }
      var todo := registry.Keys;
      while todo != {}
        invariant todo <= registry.Keys
        invariant forall k :: k in registry && k !in todo ==> crawlers[registry[k]].complete
        decreases todo
      {
        var k :| k in todo;
        if !crawlers[registry[k]].complete {
          return false;
        }
        todo := todo - {k};
      }
      return true;
    }
  }
}
