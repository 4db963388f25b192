/** The work items the mapper moves around (ScrapeItem, MediaItem), the URL
    as the mapper sees it, and the pure part of load_links. */
module Items {
  import opened Text
  import opened Links

  /** A parsed yarl URL, reduced to what the mapper reads of it: its text
      (`str(url)`), its host, its path and its last path segment (`url.name`). */
  datatype Url = Url(text: string, host: Option<string>, path: string, name: string)

  /** `bool(url)`: an empty URL is falsy. */
  predicate Truthy(u: Url)
  {
    u.text != ""
  }

  /** `url.host` is present and non-empty. */
  predicate HasHost(u: Url)
  {
    u.host.Some? && u.host.value != ""
  }

  /** A URL waiting to be mapped, with the title of the page it came from. */
  datatype ScrapeItem = ScrapeItem(url: Url, parentTitle: string)

  /** A directory below the downloads folder. */
  datatype Dir = Downloads | Sub(parent: Dir, name: string)

  /** `directory_manager.downloads / "Loose Files"`. */
  const LooseFiles: Dir := Sub(Downloads, "Loose Files")

  /** A file to download directly, with its referer and destination folder. */
  datatype MediaItem = MediaItem(
    url: Url, referer: Url, folder: Dir, filename: string, ext: string, originalFilename: string)

  /** The collaborators the mapper calls but does not define: yarl's
      `URL(text)` and `URL.with_path`, and `get_filename_and_ext`, which
      either splits a name into file name and extension or raises
      NoExtensionFailure (None here). */
  datatype Env = Env(
    parse: string -> Url,
    withPath: (Url, string) -> Url,
    fileOf: string -> Option<(string, string)>)

  /** What the mapper relies on of `with_path`: it keeps the host and sets
      the path. */
  ghost predicate EnvOk(env: Env)
  {
    forall u: Url, p: string ::
      env.withPath(u, p).host == u.host && env.withPath(u, p).path == p
  }

  /** `extension_check`: true exactly when get_filename_and_ext succeeds on
      the URL's name. */
  predicate HasExtension(env: Env, u: Url)
  {
    env.fileOf(u.name).Some?
  }

  /** Lines 278-279 of map_urls: a URL whose text ends in "/" loses the last
      character of its path; any other URL is left as it is. */
  function Normalize(env: Env, u: Url): (r: Url)
    requires EnvOk(env)
    ensures r.host == u.host
    ensures EndsWith(u.text, "/") ==> |u.path| > 0 ==> r.path + [u.path[|u.path| - 1]] == u.path
    ensures EndsWith(u.text, "/") ==> |u.path| == 0 ==> r.path == ""
    ensures !EndsWith(u.text, "/") ==> r == u
  {
    if EndsWith(u.text, "/") then env.withPath(u, DropLast(u.path)) else u
  }

  /** `[URL(link) for link in links]`. */
  function ParseAll(env: Env, texts: seq<string>): (r: seq<Url>)
    ensures |r| == |texts|
    ensures forall k :: 0 <= k < |texts| ==> r[k] == env.parse(texts[k])
  {
    seq(|texts|, k requires 0 <= k < |texts| => env.parse(texts[k]))
  }

  /** What regex_links returns for a line. */
  function LineLinks(env: Env, line: string): seq<Url>
  {
    ParseAll(env, LinkTexts(line))
  }

  /** The links of the input file, line after line, in order. */
  function FileLinks(env: Env, lines: seq<string>): seq<Url>
  {
    if |lines| == 0 then []
    else FileLinks(env, lines[..|lines| - 1]) + LineLinks(env, lines[|lines| - 1])
  }

  /** `list(filter(None, links))`: the truthy links, in order. */
  function KeepTruthy(us: seq<Url>): (r: seq<Url>)
  {
    if |us| == 0 then []
    else KeepTruthy(us[..|us| - 1]) + (if Truthy(us[|us| - 1]) then [us[|us| - 1]] else [])
  }

  /** `ScrapeItem(url=link, parent_title="")` for each link. */
  function AsItems(us: seq<Url>): (r: seq<ScrapeItem>)
    ensures |r| == |us|
    ensures forall k :: 0 <= k < |us| ==> r[k] == ScrapeItem(us[k], "")
  {
    seq(|us|, k requires 0 <= k < |us| => ScrapeItem(us[k], ""))
  }

  /** The items load_links puts on the intake queue: the links of each line
      of the file, then the argument links, the falsy ones dropped. */
  function IngestItems(env: Env, lines: seq<string>, args: seq<Url>): seq<ScrapeItem>
  {
    AsItems(KeepTruthy(FileLinks(env, lines) + args))
  }

  /** KeepTruthy keeps exactly the truthy links, in their order: it is the
      filter, and it distributes over concatenation. */
  lemma {:induction false} KeepTruthyMembers(us: seq<Url>)
    ensures |KeepTruthy(us)| <= |us|
    ensures forall u :: u in KeepTruthy(us) <==> u in us && Truthy(u)
    decreases |us|
  {
    if |us| > 0 {
      var init := us[..|us| - 1];
      KeepTruthyMembers(init);
      assert us == init + [us[|us| - 1]];
    }
  }

  lemma {:induction false} KeepTruthyAppend(a: seq<Url>, b: seq<Url>)
    ensures KeepTruthy(a + b) == KeepTruthy(a) + KeepTruthy(b)
    decreases |b|
  {
    if |b| == 0 {
      assert a + b == a;
    } else {
      var b' := b[..|b| - 1];
      assert (a + b)[..|a + b| - 1] == a + b';
      assert (a + b)[|a + b| - 1] == b[|b| - 1];
      KeepTruthyAppend(a, b');
    }
  }

  /** Every item load_links queues carries a truthy URL and an empty parent
      title; the file's links come first, then the argument links, each list
      filtered on its own. Which links survive is KeepTruthyMembers. */
  lemma IngestShape(env: Env, lines: seq<string>, args: seq<Url>)
    ensures IngestItems(env, lines, args) ==
      AsItems(KeepTruthy(FileLinks(env, lines)) + KeepTruthy(args))
    ensures forall k :: 0 <= k < |IngestItems(env, lines, args)| ==>
      IngestItems(env, lines, args)[k].parentTitle == "" && Truthy(IngestItems(env, lines, args)[k].url)
  {
    var all := FileLinks(env, lines) + args;
    KeepTruthyMembers(all);
    KeepTruthyAppend(FileLinks(env, lines), args);
    var kept := KeepTruthy(all);
    forall k | 0 <= k < |kept| ensures Truthy(kept[k]) {
      assert kept[k] in kept;
    }
  }

  /** A comment line of the input file contributes no link. */
  lemma CommentLineIgnored(env: Env, lines: seq<string>, line: string)
    requires IsCommentLine(line)
    ensures FileLinks(env, lines + [line]) == FileLinks(env, lines)
  {
    assert (lines + [line])[..|lines + [line]| - 1] == lines;
  }

  /** The links of a file are the links of its first part, then of the rest. */
  lemma {:induction false} FileLinksAppend(env: Env, a: seq<string>, b: seq<string>)
    ensures FileLinks(env, a + b) == FileLinks(env, a) + FileLinks(env, b)
    decreases |b|
  {
    if |b| == 0 {
      assert a + b == a;
    } else {
      var b' := b[..|b| - 1];
      assert (a + b)[..|a + b| - 1] == a + b';
      assert (a + b)[|a + b| - 1] == b[|b| - 1];
      FileLinksAppend(env, a, b');
    }
  }
}
