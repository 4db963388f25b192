/** The routing tables of ScrapeMapper (`mapping` and `download_mapping`),
    the keys its crawler factories write into `existing_crawlers`, and the
    first-match lookup `next(key for key in table if key in host.lower())`. */
module Routing {
  import opened Text

  /** One constructor per factory method of ScrapeMapper. */
  datatype Factory =
    | Bunkr | CelebForum | Coomer | Cyberdrop | Cyberfile | EHentai | Erome
    | Fapello | GoFile | ImageBan | ImgBB | ImgBox | Imgur | ImgWiki | JpgChurch
    | Kemono | MediaFire | NudoStar | NudoStarTv | PimpAndHost | PixelDrain
    | PostImg | Reddit | RedGifs | Saint | SocialMediaGirls | SimpCity
    | XBunker | XBunkr

  /** Every string the mapper ever uses as a key of `existing_crawlers`: the
      38 table keys and the key `nudostar` that the NudoStar factory writes.
      Each constructor stands for the distinct string literal `KeyText` gives. */
  datatype Key =
    | KXbunkr | KBunkr | KCelebforum | KCoomer | KCyberdrop | KCyberfile | KEHentai
    | KErome | KFapello | KGofile | KIbbCo | KImageban | KImgbox | KImgur | KImgKiwi
    | KJpgChurch | KJpgHomes | KJpgFish | KJpgFishing | KJpgPet | KJpegPet
    | KJpg1Su | KJpg2Su | KJpg3Su | KKemono | KMediafire | KNudostarCom
    | KNudostarTv | KPimpandhost | KPixeldrain | KPostimg | KReddit | KReddIt
    | KRedgifs | KSaint | KSocialmediagirls | KSimpcity | KXbunker | KNudostar

  function KeyText(k: Key): string
  {
    match k
    case KXbunkr => "xbunkr"
    case KBunkr => "bunkr"
    case KCelebforum => "celebforum"
    case KCoomer => "coomer"
    case KCyberdrop => "cyberdrop"
    case KCyberfile => "cyberfile"
    case KEHentai => "e-hentai"
    case KErome => "erome"
    case KFapello => "fapello"
    case KGofile => "gofile"
    case KIbbCo => "ibb.co"
    case KImageban => "imageban"
    case KImgbox => "imgbox"
    case KImgur => "imgur"
    case KImgKiwi => "img.kiwi"
    case KJpgChurch => "jpg.church"
    case KJpgHomes => "jpg.homes"
    case KJpgFish => "jpg.fish"
    case KJpgFishing => "jpg.fishing"
    case KJpgPet => "jpg.pet"
    case KJpegPet => "jpeg.pet"
    case KJpg1Su => "jpg1.su"
    case KJpg2Su => "jpg2.su"
    case KJpg3Su => "jpg3.su"
    case KKemono => "kemono"
    case KMediafire => "mediafire"
    case KNudostarCom => "nudostar.com"
    case KNudostarTv => "nudostar.tv"
    case KPimpandhost => "pimpandhost"
    case KPixeldrain => "pixeldrain"
    case KPostimg => "postimg"
    case KReddit => "reddit"
    case KReddIt => "redd.it"
    case KRedgifs => "redgifs"
    case KSaint => "saint"
    case KSocialmediagirls => "socialmediagirls"
    case KSimpcity => "simpcity"
    case KXbunker => "xbunker"
    case KNudostar => "nudostar"
  }

  /** The keys of the table, never the stray NudoStar key. */
  predicate InTable(k: Key)
  {
    k != KNudostar
  }

  /** The keys of `mapping` and of `download_mapping`, in insertion order: the
      two dictionaries list the same keys in the same order, so one sequence
      serves both. */
  const TableKeys: seq<Key> := [
    KXbunkr, KBunkr, KCelebforum, KCoomer, KCyberdrop, KCyberfile, KEHentai, KErome,
    KFapello, KGofile, KIbbCo, KImageban, KImgbox, KImgur, KImgKiwi, KJpgChurch,
    KJpgHomes, KJpgFish, KJpgFishing, KJpgPet, KJpegPet, KJpg1Su, KJpg2Su, KJpg3Su,
    KKemono, KMediafire, KNudostarCom, KNudostarTv, KPimpandhost, KPixeldrain, KPostimg,
    KReddit, KReddIt, KRedgifs, KSaint, KSocialmediagirls, KSimpcity, KXbunker]
  /** `mapping[k]`: the factory method for a table key. */
  function MappedFactory(k: Key): Factory
    requires InTable(k)
  {

    match k
    case KXbunkr => XBunkr
    case KBunkr => Bunkr
    case KCelebforum => CelebForum
    case KCoomer => Coomer
    case KCyberdrop => Cyberdrop
    case KCyberfile => Cyberfile
    case KEHentai => EHentai
    case KErome => Erome
    case KFapello => Fapello
    case KGofile => GoFile
    case KIbbCo => ImgBB
    case KImageban => ImageBan
    case KImgbox => ImgBox
    case KImgur => Imgur
    case KImgKiwi => ImgWiki
    case KJpgChurch => JpgChurch
    case KJpgHomes => JpgChurch
    case KJpgFish => JpgChurch
    case KJpgFishing => JpgChurch
    case KJpgPet => JpgChurch
    case KJpegPet => JpgChurch
    case KJpg1Su => JpgChurch
    case KJpg2Su => JpgChurch
    case KJpg3Su => JpgChurch
    case KKemono => Kemono
    case KMediafire => MediaFire
    case KNudostarCom => NudoStar
    case KNudostarTv => NudoStarTv
    case KPimpandhost => PimpAndHost
    case KPixeldrain => PixelDrain
    case KPostimg => PostImg
    case KReddit => Reddit
    case KReddIt => Reddit
    case KRedgifs => RedGifs
    case KSaint => Saint
    case KSocialmediagirls => SocialMediaGirls
    case KSimpcity => SimpCity
    case KXbunker => XBunker
  }

  /** `download_mapping[k]`: the name registered with the download manager. */
  function DownloadName(k: Key): string
    requires InTable(k)
  {
    match k
    case KXbunkr => "xbunkr"
    case KBunkr => "bunkr"
    case KCelebforum => "celebforum"
    case KCoomer => "coomer"
    case KCyberdrop => "cyberdrop"
    case KCyberfile => "cyberfile"
    case KEHentai => "e-hentai"
    case KErome => "erome"
    case KFapello => "fapello"
    case KGofile => "gofile"
    case KIbbCo => "imgbb"
    case KImageban => "imageban"
    case KImgbox => "imgbox"
    case KImgur => "imgur"
    case KImgKiwi => "sharex"
    case KJpgChurch => "sharex"
    case KJpgHomes => "sharex"
    case KJpgFish => "sharex"
    case KJpgFishing => "sharex"
    case KJpgPet => "sharex"
    case KJpegPet => "sharex"
    case KJpg1Su => "sharex"
    case KJpg2Su => "sharex"
    case KJpg3Su => "sharex"
    case KKemono => "kemono"
    case KMediafire => "mediafire"
    case KNudostarCom => "nudostar"
    case KNudostarTv => "nudostartv"
    case KPimpandhost => "pimpandhost"
    case KPixeldrain => "pixeldrain"
    case KPostimg => "postimg"
    case KReddit => "reddit"
    case KReddIt => "reddit"
    case KRedgifs => "redgifs"
    case KSaint => "saint"
    case KSocialmediagirls => "socialmediagirls"
    case KSimpcity => "simpcity"
    case KXbunker => "xbunker"
  }

  /** Which set of factory bodies is in force: the ones in the source, or the
      same with the NudoStar factory writing its own table key. */
  datatype Catalog = AsWritten | Corrected

  /** The factory whose method writes key `k` into `existing_crawlers`
      (each factory binds all of its keys to the one instance it constructs);
      none for a key no factory writes under the catalog. */
  function Writer(c: Catalog, k: Key): Option<Factory>
  {
    match k
    case KXbunkr => Some(XBunkr)
    case KBunkr => Some(Bunkr)
    case KCelebforum => Some(CelebForum)
    case KCoomer => Some(Coomer)
    case KCyberdrop => Some(Cyberdrop)
    case KCyberfile => Some(Cyberfile)
    case KEHentai => Some(EHentai)
    case KErome => Some(Erome)
    case KFapello => Some(Fapello)
    case KGofile => Some(GoFile)
    case KIbbCo => Some(ImgBB)
    case KImageban => Some(ImageBan)
    case KImgbox => Some(ImgBox)
    case KImgur => Some(Imgur)
    case KImgKiwi => Some(ImgWiki)
    case KJpgChurch | KJpgHomes | KJpgFish | KJpgFishing | KJpgPet | KJpegPet
       | KJpg1Su | KJpg2Su | KJpg3Su => Some(JpgChurch)
    case KKemono => Some(Kemono)
    case KMediafire => Some(MediaFire)
    case KNudostar => if c == AsWritten then Some(NudoStar) else None
    case KNudostarCom => if c == Corrected then Some(NudoStar) else None
    case KNudostarTv => Some(NudoStarTv)
    case KPimpandhost => Some(PimpAndHost)
    case KPixeldrain => Some(PixelDrain)
    case KPostimg => Some(PostImg)
    case KReddit | KReddIt => Some(Reddit)
    case KRedgifs => Some(RedGifs)
    case KSaint => Some(Saint)
    case KSocialmediagirls => Some(SocialMediaGirls)
    case KSimpcity => Some(SimpCity)
    case KXbunker => Some(XBunker)
  }

  /** A key each factory writes under catalog `c`: every factory method
      registers its instance under at least one key. */
  function Home(c: Catalog, f: Factory): (k: Key)
    ensures Writer(c, k) == Some(f)
  {
    match f
    case Bunkr => KBunkr
    case CelebForum => KCelebforum
    case Coomer => KCoomer
    case Cyberdrop => KCyberdrop
    case Cyberfile => KCyberfile
    case EHentai => KEHentai
    case Erome => KErome
    case Fapello => KFapello
    case GoFile => KGofile
    case ImageBan => KImageban
    case ImgBB => KIbbCo
    case ImgBox => KImgbox
    case Imgur => KImgur
    case ImgWiki => KImgKiwi
    case JpgChurch => KJpgChurch
    case Kemono => KKemono
    case MediaFire => KMediafire
    case NudoStar => if c == AsWritten then KNudostar else KNudostarCom
    case NudoStarTv => KNudostarTv
    case PimpAndHost => KPimpandhost
    case PixelDrain => KPixeldrain
    case PostImg => KPostimg
    case Reddit => KReddit
    case RedGifs => KRedgifs
    case Saint => KSaint
    case SocialMediaGirls => KSocialmediagirls
    case SimpCity => KSimpcity
    case XBunker => KXbunker
    case XBunkr => KXbunkr
  }

  /** What the mapper consults of the tables and the factories:
      `mapping.get(k)`, `download_mapping.get(k)`, and which factory, if any,
      writes key `k` into `existing_crawlers`. */
  datatype Tables = Tables(
    mapped: Key -> Option<Factory>,
    download: Key -> Option<string>,
    writer: Key -> Option<Factory>)

  /** The tables of ScrapeMapper with the factories of catalog `c`. */
  function TablesOf(c: Catalog): Tables
  {
    Tables(
      k => if InTable(k) then Some(MappedFactory(k)) else None,
      k => if InTable(k) then Some(DownloadName(k)) else None,
      k => Writer(c, k))
  }

  /** The keys factory `f` writes, all bound to the instance it constructs.
      No key is written by two factories, since the writer is a function. */
  function Writes(t: Tables, f: Factory): set<Key>
  {
    set k: Key | t.writer(k) == Some(f)
  }

  /** What the mapper's invariant needs of the tables: every table key has
      a factory and a download name, and a factory that writes one of its
      table keys writes all of them. */
  ghost predicate TablesOk(t: Tables)
  {
    && (forall k :: InTable(k) ==> t.mapped(k).Some? && t.download(k).Some?)
    && (forall k, l ::
          (InTable(k) && InTable(l) && t.mapped(k) == t.mapped(l) && t.writer(k) == t.mapped(k))
          ==> t.writer(l) == t.mapped(l))
  }

  /** The index of the first key, in order, whose text occurs in `host`. */
  function FirstMatch(keys: seq<Key>, host: string): (r: Option<nat>)
    ensures r.Some? ==> r.value < |keys| && Contains(host, KeyText(keys[r.value]))
    ensures r.Some? ==> forall j :: 0 <= j < r.value ==> !Contains(host, KeyText(keys[j]))
    ensures r.None? ==> forall j :: 0 <= j < |keys| ==> !Contains(host, KeyText(keys[j]))
  {
    FirstMatchFrom(keys, host, 0)
  }

  function FirstMatchFrom(keys: seq<Key>, host: string, from: nat): (r: Option<nat>)
    requires from <= |keys|
    ensures r.Some? ==> from <= r.value < |keys| && Contains(host, KeyText(keys[r.value]))
    ensures r.Some? ==> forall j :: from <= j < r.value ==> !Contains(host, KeyText(keys[j]))
    ensures r.None? ==> forall j :: from <= j < |keys| ==> !Contains(host, KeyText(keys[j]))
    decreases |keys| - from
  {
    if from == |keys| then None
    else if Contains(host, KeyText(keys[from])) then Some(from)
    else FirstMatchFrom(keys, host, from + 1)
  }

  /** `key` of map_urls, as an index into the table keys. */
  function Route(host: string): Option<nat>
  {
    FirstMatch(TableKeys, Lower(host))
  }

  /** `download_key` of map_urls: the same first-match search run over
      `download_mapping`, whose keys are the table keys. */
  function DownloadKey(host: string): Option<string>
  {
    match FirstMatch(TableKeys, Lower(host))
    case Some(i) => (TableKeyInTable(i); Some(DownloadName(TableKeys[i])))
    case None => None
  }

  /** Every table key is a key of `mapping`, so never the stray NudoStar key. */
  lemma TableKeyInTable(i: nat)
    requires i < |TableKeys|
    ensures InTable(TableKeys[i])
  {
    assert KNudostar !in TableKeys;
    assert TableKeys[i] in TableKeys;
  }

  /** The routed key is the earliest table key occurring in the lowercased
      host, none when no key occurs; download_key is download_mapping[key]. */
  lemma RouteSpec(host: string)
    ensures Route(host).Some? ==>
      var i := Route(host).value;
      && i < |TableKeys| && InTable(TableKeys[i])
      && Contains(Lower(host), KeyText(TableKeys[i]))
      && (forall j :: 0 <= j < i ==> !Contains(Lower(host), KeyText(TableKeys[j])))
      && DownloadKey(host) == Some(DownloadName(TableKeys[i]))
    ensures Route(host).None? <==> DownloadKey(host).None?
    ensures Route(host).None? <==>
      forall j :: 0 <= j < |TableKeys| ==> !Contains(Lower(host), KeyText(TableKeys[j]))
  {
    if Route(host).Some? {
      TableKeyInTable(Route(host).value);
    }
  }

  /** A host containing `xbunkr` routes to `xbunkr`, never to `bunkr`. */
  lemma XBunkrBeforeBunkr(host: string)
    requires Contains(Lower(host), "xbunkr")
    ensures Route(host) == Some(0) && TableKeys[0] == KXbunkr
    ensures DownloadKey(host) == Some("xbunkr")
  {
    RouteSpec(host);
  }

  lemma FishInFishing(h: string)
    requires Contains(h, "jpg.fishing")
    ensures Contains(h, "jpg.fish")
  {
    assert StartsAt("jpg.fishing", 0, "jpg.fish");
    ContainsTrans(h, "jpg.fishing", "jpg.fish");
  }

  /** A key whose text contains the text of an earlier key is never the
      first match. */
  lemma Shadowed(keys: seq<Key>, host: string, a: nat, b: nat)
    requires a < b < |keys|
    requires forall h :: Contains(h, KeyText(keys[b])) ==> Contains(h, KeyText(keys[a]))
    ensures FirstMatch(keys, host) != Some(b)
  {
  }

  /** The key `jpg.fishing` is never the routed key: every host holding it
      also holds the earlier key `jpg.fish`. */
  lemma JpgFishingShadowed(host: string)
    ensures TableKeys[18] == KJpgFishing && TableKeys[17] == KJpgFish
    ensures Route(host) != Some(18)
  {
    assert TableKeys[17] == KJpgFish && TableKeys[18] == KJpgFishing;
    forall h | Contains(h, KeyText(TableKeys[18])) ensures Contains(h, KeyText(TableKeys[17])) {
      FishInFishing(h);
    }
    Shadowed(TableKeys, Lower(host), 17, 18);
  }

  /** Routing ignores letter case: a host and its lowercase form route to
      the same key and the same download name. */
  lemma RouteIgnoresCase(host: string)
    ensures Route(Lower(host)) == Route(host)
    ensures DownloadKey(Lower(host)) == DownloadKey(host)
  {
    LowerIdempotent(host);
  }

  /** Every factory writes its own table keys, except NudoStar as written,
      which writes `nudostar` instead of `nudostar.com`. */
  lemma OwnKeyWritten(c: Catalog, k: Key)
    requires InTable(k)
    ensures Writer(c, k) == Some(MappedFactory(k)) <==> c == Corrected || k != KNudostarCom
  {
  }

  /** The NudoStar factory of the source does not write its own table key. */
  lemma NudoStarMissesOwnKey()
    ensures TableKeys[26] == KNudostarCom && MappedFactory(KNudostarCom) == NudoStar
    ensures KNudostarCom !in Writes(TablesOf(AsWritten), NudoStar)
    ensures KNudostarCom in Writes(TablesOf(Corrected), NudoStar)
  {
  }

  /** Both catalogs meet what the mapper needs of its tables. */
  lemma TablesOfOk(c: Catalog)
    ensures TablesOk(TablesOf(c))
  {
    var t := TablesOf(c);
    forall k, l | InTable(k) && InTable(l) && t.mapped(k) == t.mapped(l) && t.writer(k) == t.mapped(k)
      ensures t.writer(l) == t.mapped(l)
    {
      OwnKeyWritten(c, k);
      OwnKeyWritten(c, l);
    }
  }

  /** The JpgChurch factory registers itself under all nine of its aliases. */
  lemma JpgChurchAliases(c: Catalog)
    ensures Writes(TablesOf(c), JpgChurch) ==
      {KJpgChurch, KJpgHomes, KJpgFish, KJpgFishing, KJpgPet, KJpegPet, KJpg1Su, KJpg2Su, KJpg3Su}
  {
  }

  /** Reddit registers itself under `reddit` and `redd.it`. */
  lemma RedditAliases(c: Catalog)
    ensures Writes(TablesOf(c), Reddit) == {KReddit, KReddIt}
  {
  }

  /** NudoStar registers under `nudostar` as written, under its table key
      `nudostar.com` when corrected. */
  lemma NudoStarKeys(c: Catalog)
    ensures Writes(TablesOf(c), NudoStar) == if c == AsWritten then {KNudostar} else {KNudostarCom}
  {
  }
}
