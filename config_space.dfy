/** The configuration space the retry controllers walk through: the fixed,
    ordered client-persona lists, the format-selector list chosen from the
    requested format type and quality, and the rule that turns a persona
    into the options handed to the extractor (app.py). */
module ConfigSpace {
  import opened Text

  /** One entry of the persona lists. The lists only hold three shapes of
      config dictionary: `{}` (let the extractor choose its clients),
      `{'player_client': pc}`, and `{'player_client': pc, 'no_cookies': True}`. */
  datatype Persona =
    | AutoSelect
    | Clients(playerClient: seq<string>)
    | ClientsWithoutCookies(playerClient: seq<string>)

  /** What the extractor is asked to do: read metadata only (`skip_download`,
      with `extract_flat` on the relaxed retry), or download with a format
      selector, adding the mp3 extraction post-processor for audio. */
  datatype Mode =
    | Metadata(extractFlat: bool)
    | Download(format: string, extractMp3: bool)

  /** The part of the extractor options that depends on the persona and the
      attempt: `extractor_args['youtube']['player_client']` (None when no
      `extractor_args` key is set), whether `cookiefile` is set, and the mode. */
  datatype Options = Options(playerClient: Option<seq<string>>, cookieFile: bool, mode: Mode)

  const AndroidVr: seq<string> := ["android_vr"]

  /** Personas for metadata extraction (app.py:34-52). */
  function MetadataPersonas(hasCookies: bool): seq<Persona>
  {
    if hasCookies then
      [ AutoSelect,
        Clients(["tv_downgraded", "web", "web_safari"]),
        Clients(["tv_downgraded", "web_creator", "web"]),
        Clients(["web"]),
        ClientsWithoutCookies(AndroidVr) ]
    else
      NoCookiePersonas()
  }

  /** Personas for both download paths (app.py:196-213 and 357-372). */
  function DownloadPersonas(hasCookies: bool): seq<Persona>
  {
    if hasCookies then
      [ ClientsWithoutCookies(AndroidVr),
        AutoSelect,
        Clients(["tv_downgraded", "web", "web_safari"]),
        Clients(["tv_downgraded", "web_creator", "web"]),
        Clients(["web"]) ]
    else
      NoCookiePersonas()
  }

  /** The list used by every path when no cookie file exists. */
  function NoCookiePersonas(): seq<Persona>
  {
    [ Clients(AndroidVr),
      Clients(["android_vr", "web", "web_safari"]),
      Clients(["web"]),
      Clients(["mweb", "web"]),
      AutoSelect ]
  }

  /** The format selectors tried, in order, for a download request
      (app.py:217-230 and 375-386). Any format type other than "video" or
      "audio", and any video quality other than the four listed, gives no
      selector at all, so no download is attempted. */
  function Selectors(formatType: string, quality: string): (r: seq<string>)
    ensures r != [] <==> formatType == "audio" ||
                         (formatType == "video" && quality in {"best", "720p", "480p", "360p"})
    ensures |r| <= 2
    ensures r != [] ==> r[|r| - 1] == "best"
    ensures |r| == 2 ==> r[0] != "best"
  {
    if formatType == "video" then
      if quality == "best" then ["best"]
      else if quality == "720p" then ["best[height<=720]", "best"]
      else if quality == "480p" then ["best[height<=480]", "best"]
      else if quality == "360p" then ["best[height<=360]", "best"]
      else []
    else if formatType == "audio" then ["bestaudio/best", "best"]
    else []
  }

  /** A video quality caps the height at the number the quality names and
      falls back to plain `best`; audio asks for the best audio stream
      whatever the quality says. */
  lemma SelectorsByRequest(formatType: string, quality: string)
    ensures formatType == "video" && quality in {"720p", "480p", "360p"} ==>
      Selectors(formatType, quality) == ["best[height<=" + quality[..3] + "]", "best"]
    ensures formatType == "video" && quality == "best" ==> Selectors(formatType, quality) == ["best"]
    ensures formatType == "audio" ==> Selectors(formatType, quality) == Selectors("audio", "best")
    ensures formatType != "video" && formatType != "audio" ==> Selectors(formatType, quality) == []
  {
    if formatType == "video" {
      if quality == "720p" {
        assert quality[..3] == "720";
        assert "best[height<=" + "720" + "]" == "best[height<=720]";
      } else if quality == "480p" {
        assert quality[..3] == "480";
        assert "best[height<=" + "480" + "]" == "best[height<=480]";
      } else if quality == "360p" {
        assert quality[..3] == "360";
        assert "best[height<=" + "360" + "]" == "best[height<=360]";
      }
    }
  }

  /** The player-client list forwarded as `extractor_args` (app.py:68-75,
      252-259): none for the empty persona, and only the `player_client`
      entry for a persona that also says `no_cookies`. */
  function ExtractorArgs(p: Persona): Option<seq<string>>
  {
    match p
    case AutoSelect => None
    case Clients(pc) => Some(pc)
    case ClientsWithoutCookies(pc) => Some(pc)
  }

  /** `cookiefile` is set when the cookie file exists and the persona does
      not say `no_cookies` (app.py:78-79, 262-263). */
  predicate SendsCookieFile(p: Persona, hasCookies: bool)
  {
    hasCookies && !p.ClientsWithoutCookies?
  }

  /** The options one attempt hands to the extractor. */
  function Resolve(p: Persona, hasCookies: bool, mode: Mode): (o: Options)
    ensures o.cookieFile <==> hasCookies && !p.ClientsWithoutCookies?
    ensures o.playerClient.None? <==> p == AutoSelect
    ensures p != AutoSelect ==> o.playerClient == Some(p.playerClient)
    ensures o.mode == mode
  {
    Options(ExtractorArgs(p), SendsCookieFile(p, hasCookies), mode)
  }

  /** With a cookie file, every persona but one sends it: the android_vr
      persona, first of the download list and last of the metadata list.
      Without a cookie file no persona sends one. */
  lemma CookieFileOnlyWithoutNoCookiesPersona(m: Mode)
    ensures forall i :: 0 <= i < |DownloadPersonas(true)| ==>
      (!Resolve(DownloadPersonas(true)[i], true, m).cookieFile <==> i == 0)
    ensures forall i :: 0 <= i < |MetadataPersonas(true)| ==>
      (!Resolve(MetadataPersonas(true)[i], true, m).cookieFile <==> i == 4)
    ensures forall i :: 0 <= i < |DownloadPersonas(true)| ==>
      (DownloadPersonas(true)[i].ClientsWithoutCookies? ==>
        Resolve(DownloadPersonas(true)[i], true, m).playerClient == Some(AndroidVr))
    ensures forall p :: p in DownloadPersonas(false) + MetadataPersonas(false) ==>
      !Resolve(p, false, m).cookieFile
  {
  }

  /** Each list holds five distinct personas, exactly one of which forwards
      no `extractor_args`; the metadata list with cookies is the download
      list with its first persona moved to the end. */
  lemma PersonaListsShape(hasCookies: bool)
    ensures |MetadataPersonas(hasCookies)| == 5 && |DownloadPersonas(hasCookies)| == 5
    ensures forall i, j :: 0 <= i < j < 5 ==> DownloadPersonas(hasCookies)[i] != DownloadPersonas(hasCookies)[j]
    ensures forall i, j :: 0 <= i < j < 5 ==> MetadataPersonas(hasCookies)[i] != MetadataPersonas(hasCookies)[j]
    ensures forall i :: 0 <= i < 5 ==> (DownloadPersonas(hasCookies)[i] == AutoSelect <==> i == if hasCookies then 1 else 4)
    ensures forall i :: 0 <= i < 5 ==> (MetadataPersonas(hasCookies)[i] == AutoSelect <==> i == if hasCookies then 0 else 4)
    ensures hasCookies ==> MetadataPersonas(true) == DownloadPersonas(true)[1..] + [DownloadPersonas(true)[0]]
    ensures !hasCookies ==> MetadataPersonas(false) == DownloadPersonas(false)
  {
  }
}
