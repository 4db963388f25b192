# ScrapeMapper of cyberdrop_dl, modelled in Dafny

`ScrapeMapper` (`cyberdrop_dl/scraper/scraper.py`) is the dispatcher of
Cyberdrop-DL. It reads links out of the input file and the command line.
Each link becomes a work item on the intake queue, `url_objects_to_map`.
`map_urls` then takes the items off that queue one at a time:

- it drops URLs that are empty or have no host;
- it applies the `skip_hosts` / `only_hosts` filters;
- it strips a trailing `/`;
- it routes the host to the first matching key of its site table.

A routed item goes to that site's crawler. The crawler is created lazily: its
factory method runs, `startup()` is called, a download instance is
registered and its `run_loop` is spawned. An item that is not routed falls
back, in this order, to a direct "Loose Files" download, to JDownloader, or
to the unsupported-URL log. `check_complete` reports whether all work is done.

The model has six files.

- `text.dfy` (`Text`): Python string operations the mapper relies on. These
  are `strip()`/`isspace()`, the substring test `in`, `endswith`, `s[:-1]`
  and an ASCII `lower()`.
- `links.dfy` (`Links`): `regex_links` as a scanner. Its specification
  `LinkTexts` is the sequence of re.finditer matches, each repaired by
  `.replace(".md.", ".")`. `ScanLinks` is the loop proved against it.
- `items.dfy` (`Items`): `Url`, `ScrapeItem` and `MediaItem`, the external
  collaborators as `Env`, and the pure part of `load_links`: what it queues
  for given file lines and argument links.
- `routing.dfy` (`Routing`): the shared key order of `mapping` and
  `download_mapping`. It also holds the factory behind each key, the keys
  each factory method writes into `existing_crawlers`, and the first-match
  lookup of lines 281-282.
- `mapper.dfy` (`Mapper`): the state that map_urls changes, as a value
  (`State`). One loop iteration is the function `MapStep`. The module also
  holds the registry invariant that every iteration keeps (`Inv`) and
  `check_complete` as the predicate `AllComplete`.
- `scrape_mapper.dfy` (`Scraper`): the class `ScrapeMapper`. Its fields are
  the intake queue, `existing_crawlers`, the crawler instances, the
  download registrations, the `no_crawler` queue, the JDownloader flags and
  items, the unsupported log and the `complete` flag. Each of its methods
  (the constructor, `LoadLinks`, `RegexLinks`, `SkipCheck`, the factory
  run, `Step`, `CheckComplete`) is written as the source's loops. Each is
  proved to produce exactly the state the functions of `Mapper` and `Items`
  prescribe.

A crawler instance is a `Crawler` record: its factory, how often
`startup()` ran, whether `run_loop` was spawned, its `scraper_queue` and its
`complete` flag. `existing_crawlers` maps each key to the index of an
instance. This lets the nine `jpg.*` aliases and the two Reddit keys share
one instance, as the factories at lines 124-135 and 172-176 make them.

String keys are the constructors of `Routing.Key`. `KeyText` gives each
constructor's literal, and all the literals are distinct. The only key that
is not in the tables is `nudostar`, the key the NudoStar factory writes.
Both tables are written with the 38 keys in the same order (lines 25-47),
so one sequence, `TableKeys`, stands for the key order of both;
`download_key` is then `download_mapping[key]`.

After a failed lazy JDownloader setup (lines 305-309), the code logs the
URL as unsupported and then still hands it to JDownloader (lines 310-311),
because line 310 is not under an `else`: such a URL is both logged and
delegated. `Mapper.Fallback` and `Mapper.FallbackCases` state exactly that.

## Model

| member | source | states |
|---|---|---|
| Text.CommentLineIff | cyberdrop_dl/scraper/scraper.py:214 | a line counts as a comment exactly when its first non-whitespace character is `#` |
| Text.LowerIdempotent | cyberdrop_dl/scraper/scraper.py:281-282 | the lowercased host holds no ASCII capital, and lowering it again changes nothing |
| Routing.RouteIgnoresCase | cyberdrop_dl/scraper/scraper.py:281-282 | a host and its lowercase form route to the same key and the same download name |
| Links.SpanEndFirst | cyberdrop_dl/scraper/scraper.py:217-218 | a match ends at the first position where the lookahead (end, whitespace, `"`, `[/URL]`, `'][`, `][`, `[/img]`) holds, and at no earlier one |
| Links.NextHttpFirst | cyberdrop_dl/scraper/scraper.py:217-218 | the search for the next match passes over no `http` |
| Links.SpansFacts | cyberdrop_dl/scraper/scraper.py:217-218 | the matches are well formed, in left-to-right order and non-overlapping, and every `http` of the line lies inside one of them |
| Links.ReplaceMdLeftmost | cyberdrop_dl/scraper/scraper.py:217 | `.replace(".md.", ".")` rewrites the leftmost occurrence and continues after it |
| Links.ReplaceMdNoop | cyberdrop_dl/scraper/scraper.py:217 | a text without `.md.` is left unchanged |
| Links.ReplaceMdChars | cyberdrop_dl/scraper/scraper.py:217 | the repair never lengthens a text or adds a character |
| Links.LinkTextsShape | cyberdrop_dl/scraper/scraper.py:217-221 | every extracted link starts with `http` and holds no whitespace and no `"` |
| Links.CommentLineYieldsNothing | cyberdrop_dl/scraper/scraper.py:214-215 | a line whose first non-whitespace character is `#` yields no link |
| Links.MatchEnd | cyberdrop_dl/scraper/scraper.py:217-218 | the lazy `.*?` loop stops where the match ends |
| Links.ScanLinks | cyberdrop_dl/scraper/scraper.py:210-221 | the scanner returns exactly the repaired re.finditer matches, or nothing for a comment line |
| Items.Normalize | cyberdrop_dl/scraper/scraper.py:278-279 | a URL ending in `/` keeps its host and loses exactly the last character of its path, and any other URL is unchanged |
| Items.KeepTruthyMembers | cyberdrop_dl/scraper/scraper.py:231 | the filter keeps exactly the truthy links, and no more links than it was given |
| Items.KeepTruthyAppend | cyberdrop_dl/scraper/scraper.py:229-231 | filtering the file links followed by the argument links is filtering each list on its own |
| Items.IngestShape | cyberdrop_dl/scraper/scraper.py:223-237 | load_links queues the file's links before the argument links, each item with an empty parent title and a truthy URL |
| Items.CommentLineIgnored | cyberdrop_dl/scraper/scraper.py:214-229 | a comment line of the input file adds nothing to the intake |
| Items.FileLinksAppend | cyberdrop_dl/scraper/scraper.py:227-229 | the links of a file are those of its first part followed by those of the rest |
| Routing.FirstMatch | cyberdrop_dl/scraper/scraper.py:281-282 | the result is the earliest key in table order whose text occurs in the host, or none when no key occurs |
| Routing.RouteSpec | cyberdrop_dl/scraper/scraper.py:281-282 | `key` is a table key, the earliest to occur in the lowercased host; `download_key` is `download_mapping[key]`; both are None together, exactly when no key occurs |
| Routing.XBunkrBeforeBunkr | cyberdrop_dl/scraper/scraper.py:25-37 | a host containing `xbunkr` routes to `xbunkr` (download name `xbunkr`), never to `bunkr` |
| Routing.JpgFishingShadowed | cyberdrop_dl/scraper/scraper.py:29-30 | `jpg.fishing` is never the routed key, because `jpg.fish` comes first and occurs in every host holding it |
| Routing.OwnKeyWritten | cyberdrop_dl/scraper/scraper.py:54-206 | every factory writes its own table keys, except the NudoStar factory of the source, which misses `nudostar.com` |
| Routing.NudoStarMissesOwnKey | cyberdrop_dl/scraper/scraper.py:147-150 | `nudostar.com` maps to the NudoStar factory, which writes `nudostar` and not `nudostar.com`; the corrected factory writes it |
| Routing.Home | cyberdrop_dl/scraper/scraper.py:54-206 | every factory method registers its instance under at least one key, under either catalog |
| Routing.TablesOfOk | cyberdrop_dl/scraper/scraper.py:25-206 | every table key has a factory and a download name, and a factory that writes one of its table keys writes all of them |
| Routing.JpgChurchAliases | cyberdrop_dl/scraper/scraper.py:124-135 | the JpgChurch factory writes exactly its nine aliases |
| Routing.RedditAliases | cyberdrop_dl/scraper/scraper.py:172-176 | the Reddit factory writes exactly `reddit` and `redd.it` |
| Routing.NudoStarKeys | cyberdrop_dl/scraper/scraper.py:147-150 | the NudoStar factory writes exactly `nudostar` as written, and exactly `nudostar.com` when corrected |
| Mapper.Install | cyberdrop_dl/scraper/scraper.py:54-206 | a factory run binds each key it writes to the new instance and keeps every other entry |
| Mapper.InitialInv | cyberdrop_dl/scraper/scraper.py:24-52 | a fresh mapper meets the registry invariant |
| Mapper.StepDropsHostless | cyberdrop_dl/scraper/scraper.py:261-266 | an empty or host-less URL is popped from intake and nothing else changes |
| Mapper.StepSkips | cyberdrop_dl/scraper/scraper.py:268-296 | a skipped item is popped and reaches no crawler, download queue, JDownloader or log, even when a key matched |
| Mapper.StepRoutes | cyberdrop_dl/scraper/scraper.py:278-284 | a routed, unskipped item is dispatched, URL repaired, on its table key with that key's download name |
| Mapper.StepFallsBack | cyberdrop_dl/scraper/scraper.py:278-314 | an unskipped item that no key matches goes to the fallbacks |
| Mapper.DispatchReuses | cyberdrop_dl/scraper/scraper.py:286-292 | for a registered key, only that instance's queue grows by the item: no factory, startup or download registration runs |
| Mapper.DispatchRaises | cyberdrop_dl/scraper/scraper.py:286-289 | when the factory of an unregistered key does not write it, map_urls dies with KeyError: the new instance is never started, spawned or given the item, no download instance is registered, the key stays unregistered, and earlier instances, queues and logs are untouched |
| Mapper.UnregisteredHasNoInstance | cyberdrop_dl/scraper/scraper.py:286-288 | while map_urls runs, the factory of an unregistered table key has no instance yet |
| Mapper.DispatchCreates | cyberdrop_dl/scraper/scraper.py:286-292 | for an unregistered key that its factory writes: the factory, which had no instance, runs once and gets one new instance; startup runs once and run_loop is spawned; the item is that instance's only entry; the download name is registered once; nothing else changes |
| Mapper.JpgChurchShared | cyberdrop_dl/scraper/scraper.py:124-135 | after the JpgChurch factory ran, all nine aliases are bound to the one new instance |
| Mapper.RedditShared | cyberdrop_dl/scraper/scraper.py:172-176 | after the Reddit factory ran, `reddit` and `redd.it` are bound to the one new instance |
| Mapper.NudoStarRaises | cyberdrop_dl/scraper/scraper.py:286-289 | with the source's factories, dispatch on an unregistered `nudostar.com` raises KeyError, leaving an unstarted instance bound to `nudostar` and no download registration |
| Mapper.StepRaisesOnUnwrittenKey | cyberdrop_dl/scraper/scraper.py:281-289 | an iteration that routes to an unregistered key whose factory does not write it ends map_urls with KeyError |
| Mapper.CorrectedNeverRaises | cyberdrop_dl/scraper/scraper.py:284-294 | with the corrected NudoStar factory, dispatch never raises KeyError |
| Mapper.FallbackCases | cyberdrop_dl/scraper/scraper.py:297-314 | exactly one of three paths is taken: a Loose Files `MediaItem(url, url, …, filename, ext, filename)` on the `no_crawler` queue; JDownloader with the parent title, plus an unsupported-log entry only when lazy setup left it disabled; or one unsupported-log entry. None of them touches the registry or the instances |
| Mapper.EnqueueKeepsInv | cyberdrop_dl/scraper/scraper.py:292 | queueing on an existing instance keeps the registry invariant |
| Mapper.InstallKeepsBound | cyberdrop_dl/scraper/scraper.py:54-206 | after a factory run, every key an instance's factory wrote is bound to that instance |
| Mapper.InstallKeepsOwned | cyberdrop_dl/scraper/scraper.py:54-206 | after a factory run, every key is bound to an existing instance whose factory wrote it |
| Mapper.InstallCoversTable | cyberdrop_dl/scraper/scraper.py:286-288 | after a factory that wrote its key ran, all table keys of that factory are registered |
| Mapper.InstallKeepsInv | cyberdrop_dl/scraper/scraper.py:286-291 | adding the started instance, or the unstarted one left by a KeyError, keeps the invariant |
| Mapper.CreateKeepsInv | cyberdrop_dl/scraper/scraper.py:286-292 | creating an instance for an unregistered key keeps the invariant |
| Mapper.DispatchKeepsInv | cyberdrop_dl/scraper/scraper.py:284-294 | dispatch keeps the invariant on every branch |
| Mapper.StepKeepsInv | cyberdrop_dl/scraper/scraper.py:259-314 | every iteration keeps the invariant: keys bound exactly to the instance whose factory wrote them, one instance per factory, each started once |
| Mapper.SecondVisitReuses | cyberdrop_dl/scraper/scraper.py:284-294 | the same item mapped twice in a row reuses the instance of the first visit and creates none |
| Mapper.CompleteMeansAllDone | cyberdrop_dl/scraper/scraper.py:249-255 | check_complete holds exactly when no item waits and every crawler instance ever created is complete, including one left behind by a KeyError |
| Scraper.FirstKey | cyberdrop_dl/scraper/scraper.py:281-282 | the generator's loop returns the first-match index |
| Scraper.Truthful | cyberdrop_dl/scraper/scraper.py:231 | the loop keeps exactly what `filter(None, links)` keeps |
| Scraper.ParseLinks | cyberdrop_dl/scraper/scraper.py:219-220 | the loop parses every link, in order |
| Scraper.ItemsOf | cyberdrop_dl/scraper/scraper.py:235-237 | the loop wraps every link as an item with an empty parent title, in order |
| Scraper.ScrapeMapper.constructor | cyberdrop_dl/scraper/scraper.py:24-52 | a new mapper has empty queues and registry, both tables, the JDownloader agent unset, `complete` false, and meets the invariant |
| Scraper.ScrapeMapper.SkipCheck | cyberdrop_dl/scraper/scraper.py:268-276 | the two filter loops set `skip` exactly when some `skip_hosts` entry occurs in the host or some `only_hosts` entry does not |
| Scraper.ScrapeMapper.RegexLinks | cyberdrop_dl/scraper/scraper.py:210-221 | regex_links returns the parsed links of the line |
| Scraper.ScrapeMapper.FileLinksOf | cyberdrop_dl/scraper/scraper.py:226-229 | the read loop collects the links of every line, in order |
| Scraper.ScrapeMapper.LoadLinks | cyberdrop_dl/scraper/scraper.py:223-237 | the intake grows by exactly the ingested items and nothing else changes |
| Scraper.ScrapeMapper.RunFactory | cyberdrop_dl/scraper/scraper.py:54-206 | a factory method adds one unstarted instance and binds all its keys to it |
| Scraper.ScrapeMapper.QueueOnExisting | cyberdrop_dl/scraper/scraper.py:292 | the item goes onto the registered instance's queue, and nothing else changes |
| Scraper.ScrapeMapper.CreateAndQueue | cyberdrop_dl/scraper/scraper.py:286-292 | the object goes through the factory, startup, registration, spawn and queueing that `Mapper.Dispatch` prescribes |
| Scraper.ScrapeMapper.DispatchItem | cyberdrop_dl/scraper/scraper.py:284-294 | the object's new state and outcome are those of `Mapper.Dispatch` |
| Scraper.ScrapeMapper.FallbackItem | cyberdrop_dl/scraper/scraper.py:297-314 | the object's new state and outcome are those of `Mapper.Fallback` |
| Scraper.ScrapeMapper.MapItem | cyberdrop_dl/scraper/scraper.py:268-314 | filtering, repair, routing and the chosen branch update the object as `Mapper.MapItem` prescribes |
| Scraper.ScrapeMapper.Step | cyberdrop_dl/scraper/scraper.py:259-314 | one iteration changes the object exactly as `Mapper.MapStep` prescribes, resets `complete`, and keeps the invariant |
| Scraper.ScrapeMapper.CheckComplete | cyberdrop_dl/scraper/scraper.py:249-255 | the loop over the registry returns `check_complete` |

## Left out

- The asyncio machinery is not modelled: `await`, `asyncio.create_task(run_loop())` (only a `spawned` flag is recorded), `asyncio.sleep(0)`, and crawler tasks setting `complete` concurrently.
- The endless `while True` loop of map_urls and its exit at lines 316-317 are left out. `complete` is set only by code outside this file, so the model has a single `Step` that resets it.
- Logging (`log(...)`, lines 234, 296, 308, 310, 313) is user-facing text with no effect on state.
- Reading the input file with aiofiles is left out: `LoadLinks` takes the file's lines as a sequence. Persisting the unsupported log is left out too; the log is an appended sequence.
- yarl is not modelled. `Url` keeps only the text, host, path and name. `URL(link)` and `with_path` are parameters of `Env`, with `with_path` assumed to keep the host and set the path. A URL counts as truthy when its text is non-empty.
- `get_filename_and_ext` is a parameter of `Env`: a partial function from a name to a file name and extension. `extension_check` is `HasExtension`.
- JDownloader internals are not modelled. The outcome of `jdownloader_setup` is the `setupOk` parameter of `Step`. Delegation is recorded as a sequence of URLs with parent titles.
- The download manager is recorded only as the list of names passed to `get_download_instance`, plus the `no_crawler` queue.
- Crawler classes and their internals, including the lazily imported classes at lines 56-205, are not modelled. An instance is a factory tag, a startup count, a spawned flag, a queue and a `complete` flag.
- `existing_crawlers.get(key)` at line 286 is read as dictionary membership, since a crawler object is always truthy.
- Calls into collaborators are assumed not to raise: `startup()` (line 289), `get_download_instance` (lines 290, 298), `URL(link)` (line 220, for instance a ValueError on a malformed IPv6 host), a `get_filename_and_ext` failure other than NoExtensionFailure (lines 242, 301) and the JDownloader calls (lines 306, 311). Since map_urls has no `try`, any of them would end it; a `startup()` that raised at line 289 would leave a registered, unstarted instance behind, as the KeyError does. Only the KeyError at line 289 is modelled.
- Text.Lower: maps only ASCII capitals, not the full Unicode case mapping of `str.lower()`.
- Links.ScanLinks: the regular expression is modelled as the scanner it amounts to (literal `http`, lazy `.*?`, the lookahead tokens), not as a general regex engine. `.` in Python's default mode does not match a newline, but every newline is whitespace and so already ends a match.

## Findings

| source | as written | input that shows it | evidently intended | confidence | as-written member | corrected member |
|---|---|---|---|---|---|---|
| cyberdrop_dl/scraper/scraper.py:147-150 | the NudoStar factory stores its crawler under `nudostar`, while `mapping` routes hosts to the key `nudostar.com`; line 289 reads `existing_crawlers["nudostar.com"]` and raises KeyError, which ends map_urls | the first URL on host `nudostar.com` (no earlier table key occurs in it) that no filter skips | the factory stores the crawler under `nudostar.com`, as every other factory stores its own table key | not executed | Mapper.NudoStarRaises | Mapper.CorrectedNeverRaises |
