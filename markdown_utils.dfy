/**
 * The content resolver of the help viewer: the image-URL template, the alt-text
 * convention, and the module-level caches behind `fetchLatestVersion` and
 * `fetchAvailableImages`.
 */
module MarkdownUtils {
  import opened Optional
  import opened JsString

  /** Local path of the help folder. */
  const HelpBaseUrl: string := "/help"
  /** The version config file, `${HELP_BASE_URL}/config.json`. */
  const ConfigUrl: string := HelpBaseUrl + "/config.json"
  /** The version used until a config file says otherwise. */
  const DefaultVersion: string := "v1"

  /** `${HELP_BASE_URL}/${version}/assets/${lang}/${imageName}`. */
  function AssetUrl(version: string, lang: string, imageName: string): string {
    HelpBaseUrl + "/" + version + "/assets/" + lang + "/" + imageName
  }

  /** `${HELP_BASE_URL}/${cachedVersion}/locales/${lang}.json`, what `fetchTranslationsFromLocal` requests. */
  function TranslationsUrl(version: string, lang: string): string {
    HelpBaseUrl + "/" + version + "/locales/" + lang + ".json"
  }

  /** A slash-free head before a slash is determined by the string. */
  lemma SlashSplitUnique(a: string, x: string, b: string, y: string)
    requires '/' !in a && '/' !in b
    requires a + "/" + x == b + "/" + y
    ensures a == b && x == y
  {
    var u := a + "/" + x;
    var w := b + "/" + y;
    assert u[|a|] == '/' && w[|b|] == '/';
    assert forall i :: 0 <= i < |a| ==> u[i] != '/';
    assert forall i :: 0 <= i < |b| ==> w[i] != '/';
    assert u[..|a|] == a && w[..|b|] == b;
    assert u[|a| + 1..] == x && w[|b| + 1..] == y;
  }

  /** Equal strings with a common prefix agree after it. */
  lemma DropCommonPrefix(p: string, x: string, y: string)
    requires p + x == p + y
    ensures x == y
  {
    assert x == (p + x)[|p|..];
    assert y == (p + y)[|p|..];
  }

  /** The URL template read as a fixed head, the version, and the rest. */
  lemma AssetUrlShape(version: string, lang: string, imageName: string)
    ensures AssetUrl(version, lang, imageName) == "/help/" + (version + "/" + ("assets/" + (lang + "/" + imageName)))
  {
  }

  /** An asset URL names one version, language and image when version and language contain no slash. */
  lemma AssetUrlInjective(v1: string, l1: string, n1: string, v2: string, l2: string, n2: string)
    requires '/' !in v1 && '/' !in v2 && '/' !in l1 && '/' !in l2
    requires AssetUrl(v1, l1, n1) == AssetUrl(v2, l2, n2)
    ensures v1 == v2 && l1 == l2 && n1 == n2
  {
    AssetUrlShape(v1, l1, n1);
    AssetUrlShape(v2, l2, n2);
    var r1 := "assets/" + (l1 + "/" + n1);
    var r2 := "assets/" + (l2 + "/" + n2);
    DropCommonPrefix("/help/", v1 + "/" + r1, v2 + "/" + r2);
    SlashSplitUnique(v1, r1, v2, r2);
    DropCommonPrefix("assets/", l1 + "/" + n1, l2 + "/" + n2);
    SlashSplitUnique(l1, n1, l2, n2);
  }

  /** The presentation classes an image may be given. */
  datatype ImageClass = Screenshot | Icon | DefaultImage {
    /** The CSS-module class name. */
    function Name(): string {
      match this
      case Screenshot => "screenshot"
      case Icon => "icon"
      case DefaultImage => "defaultImage"
    }

    /** The alt-text prefix that selects this class. */
    function Prefix(): string {
      match this
      case Screenshot => "screenshot:"
      case Icon => "icon:"
      case DefaultImage => ""
    }
  }

  datatype AltInfo = AltInfo(cleanAlt: string, className: ImageClass)

  /** `parseImageAlt`: strip a `screenshot:` or `icon:` prefix from the alt text and pick a class. */
  function ParseImageAlt(alt: Option<string>): (r: AltInfo)
    ensures (alt == None || alt == Some("")) ==> r == AltInfo("", DefaultImage)
    ensures alt.Some? && StartsWith(alt.value, "screenshot:") ==>
      r.className == Screenshot && "screenshot:" + r.cleanAlt == alt.value
    ensures alt.Some? && !StartsWith(alt.value, "screenshot:") && StartsWith(alt.value, "icon:") ==>
      r.className == Icon && "icon:" + r.cleanAlt == alt.value
    ensures alt.Some? && !StartsWith(alt.value, "screenshot:") && !StartsWith(alt.value, "icon:") ==>
      r.className == DefaultImage && r.cleanAlt == alt.value
  {
    if alt == None || alt == Some("") then AltInfo("", DefaultImage)
    else
      var a := alt.value;
      if StartsWith(a, "screenshot:") then
        ReplacePrefix(a, "screenshot:");
        AltInfo(ReplaceFirst(a, "screenshot:", ""), Screenshot)
      else if StartsWith(a, "icon:") then
        ReplacePrefix(a, "icon:");
        AltInfo(ReplaceFirst(a, "icon:", ""), Icon)
      else AltInfo(a, DefaultImage)
  }

  /** Every present alt text is its class's prefix followed by the displayed alt text. */
  lemma AltRoundTrip(alt: string)
    ensures var r := ParseImageAlt(Some(alt)); r.className.Prefix() + r.cleanAlt == alt
  {
  }

  /** The `screenshot:` test comes first, so only that prefix is removed. */
  lemma ScreenshotBeforeIcon()
    ensures ParseImageAlt(Some("screenshot:icon:x")) == AltInfo("icon:x", Screenshot)
  {
    assert StartsWith("screenshot:icon:x", "screenshot:");
  }

  /** The outcome of fetching and parsing `config.json`. */
  datatype ConfigResponse =
    | ConfigFailed                                   // network error, non-OK status or bad JSON
    | ConfigLoaded(latestVersion: Option<string>)    // the `latestVersion` field, if present

  /** The outcome of fetching and parsing a language's image `index.json`. */
  datatype ImagesResponse =
    | ImagesFailed                                   // network error, non-OK status or bad JSON
    | ImagesLoaded(images: Option<seq<string>>)      // the `images` field, if present

  /** The module-level caches `cachedVersion` and `cachedImages`. */
  class ContentResolver {
    var cachedVersion: string
    var cachedImages: map<string, seq<string>>

    constructor ()
      ensures cachedVersion == DefaultVersion && cachedImages == map[]
    {
      cachedVersion := DefaultVersion;
      cachedImages := map[];
    }

    /** `getLocalImageUrl`: the asset URL under whatever version is cached now. */
    function GetLocalImageUrl(lang: string, imageName: string): string
      reads this
    {
      AssetUrl(cachedVersion, lang, imageName)
    }

    /** `fetchLatestVersion`: `request` is the URL fetched, `response` what fetching it returned. */
    method FetchLatestVersion(response: ConfigResponse) returns (version: string, request: string)
      modifies this
      ensures request == ConfigUrl
      ensures response.ConfigLoaded? && response.latestVersion.GetOr("") != "" ==>
        version == response.latestVersion.value && cachedVersion == version
      ensures response.ConfigLoaded? && response.latestVersion.GetOr("") == "" ==>
        version == DefaultVersion && cachedVersion == version
      ensures response.ConfigFailed? ==> version == DefaultVersion && cachedVersion == old(cachedVersion)
      ensures cachedImages == old(cachedImages)
    {
      request := ConfigUrl;
      match response
      case ConfigFailed =>
        version := DefaultVersion;
      case ConfigLoaded(latest) =>
        cachedVersion := if latest.GetOr("") != "" then latest.value else DefaultVersion;
        version := cachedVersion;
    }

    /**
     * `fetchAvailableImages(lang)`. `request` is the URL fetched (None on a cache hit);
     * `response` is taken as the answer to that request and is not consulted on a hit.
     */
    method FetchAvailableImages(lang: string, response: ImagesResponse) returns (images: seq<string>, request: Option<string>)
      modifies this
      ensures cachedVersion == old(cachedVersion)
      ensures lang in old(cachedImages) ==>
        images == old(cachedImages)[lang] && request == None && cachedImages == old(cachedImages)
      ensures lang !in old(cachedImages) ==> request == Some(AssetUrl(cachedVersion, lang, "index.json"))
      ensures lang !in old(cachedImages) && response.ImagesLoaded? ==>
        images == response.images.GetOr([]) && cachedImages == old(cachedImages)[lang := images]
      ensures lang !in old(cachedImages) && response.ImagesFailed? ==>
        images == [] && cachedImages == old(cachedImages)
    {
      if lang in cachedImages {
        return cachedImages[lang], None;
      }
      request := Some(AssetUrl(cachedVersion, lang, "index.json"));
      match response
      case ImagesFailed =>
        images := [];
      case ImagesLoaded(names) =>
        images := names.GetOr([]);
        cachedImages := cachedImages[lang := images];
    }
  }

  /**
   * Two calls for the same language, the first answered: the second is a cache hit,
   * fetches nothing and returns what the first returned, whatever the network says.
   */
  method SecondFetchHitsCache(resolver: ContentResolver, lang: string, first: ImagesResponse, second: ImagesResponse)
    returns (a: seq<string>, b: seq<string>, secondRequest: Option<string>)
    requires first.ImagesLoaded?
    modifies resolver
    ensures a == b && secondRequest == None
    ensures lang in resolver.cachedImages && resolver.cachedImages[lang] == a
  {
    var r1;
    a, r1 := resolver.FetchAvailableImages(lang, first);
    b, secondRequest := resolver.FetchAvailableImages(lang, second);
  }
}
