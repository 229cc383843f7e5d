/**
 * The newer help viewer: its per-section UI state (`openMap`, `reflowTick`), the
 * effects and handlers that replace that state, and the cards it renders.
 */
module HelpViewer {
  import opened Optional
  import opened JsString
  import opened MarkdownUtils
  import opened HelpContent
  import opened TitleExtraction

  /** `!!openMap[key]`: a missing entry reads as closed. */
  function IsOpen(m: map<string, bool>, key: string): bool {
    key in m && m[key]
  }

  /** `reflowTick[key] ?? 0`. */
  function Tick(ticks: map<string, nat>, key: string): nat {
    if key in ticks then ticks[key] else 0
  }

  /** The updater passed by `toggle`: `{ ...m, [key]: !m[key] }`. */
  function ToggleUpdate(m: map<string, bool>, key: string): (r: map<string, bool>)
    ensures r.Keys == m.Keys + {key}
    ensures IsOpen(r, key) == !IsOpen(m, key)
    ensures forall k :: k in m && k != key ==> r[k] == m[k]
  {
    m[key := !IsOpen(m, key)]
  }

  /** Toggling the same key twice gives back every entry's open state. */
  lemma ToggleTwice(m: map<string, bool>, key: string, k: string)
    ensures IsOpen(ToggleUpdate(ToggleUpdate(m, key), key), k) == IsOpen(m, k)
  {
    if k != key && k in m {
      assert ToggleUpdate(m, key)[k] == m[k];
    }
  }

  /** The updater passed by `bumpReflow`: `{ ...ticks, [key]: (ticks[key] ?? 0) + 1 }`. */
  function BumpUpdate(ticks: map<string, nat>, key: string): (r: map<string, nat>)
    ensures r.Keys == ticks.Keys + {key}
    ensures Tick(r, key) == Tick(ticks, key) + 1 && Tick(r, key) >= 1
    ensures forall k :: k in ticks && k != key ==> r[k] == ticks[k]
  {
    ticks[key := Tick(ticks, key) + 1]
  }

  /** Ticks only grow, so every image load gives its section a key it has not had before. */
  lemma BumpGrows(ticks: map<string, nat>, key: string, k: string)
    ensures Tick(BumpUpdate(ticks, key), k) >= Tick(ticks, k)
    ensures k != key ==> Tick(BumpUpdate(ticks, key), k) == Tick(ticks, k)
  {
    if k != key && k in ticks {
      assert BumpUpdate(ticks, key)[k] == ticks[k];
    }
  }

  /** The updater passed by the deep-link effect: `{ ...m, [matchKey]: true }`. */
  function OpenUpdate(m: map<string, bool>, key: string): (r: map<string, bool>)
    ensures r.Keys == m.Keys + {key} && r[key]
    ensures forall k :: k in m && k != key ==> r[k] == m[k]
  {
    m[key := true]
  }

  /** Opening never closes a section, and opening twice is opening once. */
  lemma OpenNeverCloses(m: map<string, bool>, key: string, k: string)
    ensures IsOpen(m, k) ==> IsOpen(OpenUpdate(m, key), k)
    ensures IsOpen(OpenUpdate(m, key), k) <==> (k == key || IsOpen(m, k))
    ensures OpenUpdate(OpenUpdate(m, key), key) == OpenUpdate(m, key)
  {
    if k != key && k in m {
      assert OpenUpdate(m, key)[k] == m[k];
    }
  }

  /** The section keys as a set. */
  function KeySet(sections: seq<Section>): set<string> {
    set i | 0 <= i < |sections| :: sections[i].key
  }

  /** The load effect's loop: one entry per key, every one closed. */
  method InitOpenMap(keys: seq<string>) returns (init: map<string, bool>)
    ensures init.Keys == set i | 0 <= i < |keys| :: keys[i]
    ensures forall k :: k in init ==> !init[k]
  {
    init := map[];
    for i := 0 to |keys|
      invariant init.Keys == set j | 0 <= j < i :: keys[j]
      invariant forall k :: k in init ==> !init[k]
    {
      init := init[keys[i] := false];
    }
  }

  /** One rendered section card. */
  datatype Card = Card(key: string, heading: string, body: string, isOpen: bool, tick: nat)

  /** What the container shows. */
  datatype View = Loading | Sections(cards: seq<Card>)

  /** The card of one `Object.entries` pair. */
  function CardOf(s: Section, openMap: map<string, bool>, reflowTick: map<string, nat>): Card {
    Card(s.key, SectionHeading(s.key, s.content), TitleOf(s.content).body, IsOpen(openMap, s.key), Tick(reflowTick, s.key))
  }

  /** The render: a loading message until sections are set, else one card per section in key order. */
  function RenderView(sections: Option<seq<Section>>, openMap: map<string, bool>, reflowTick: map<string, nat>): View {
    match sections
    case None => Loading
    case Some(ss) => Sections(seq(|ss|, i requires 0 <= i < |ss| => CardOf(ss[i], openMap, reflowTick)))
  }

  /**
   * The cards follow the sections in order; each shows the picked title, else its key, above
   * the body with that title line removed.
   */
  lemma RenderViewSpec(sections: Option<seq<Section>>, openMap: map<string, bool>, reflowTick: map<string, nat>)
    ensures sections.None? <==> RenderView(sections, openMap, reflowTick).Loading?
    ensures sections.Some? ==>
      var cards := RenderView(sections, openMap, reflowTick).cards;
      var ss := sections.value;
      && |cards| == |ss|
      && forall i :: 0 <= i < |ss| ==>
        && cards[i].key == ss[i].key
        && (TitleOf(ss[i].content).title.None? ==> cards[i].heading == ss[i].key)
        && (TitleOf(ss[i].content).title.Some? ==> cards[i].heading == TitleOf(ss[i].content).title.value)
        && cards[i].body == TitleOf(ss[i].content).body
  {
    if sections.Some? {
      var ss := sections.value;
      forall i | 0 <= i < |ss| ensures TitleOf(ss[i].content).title.Some? ==>
        RenderView(sections, openMap, reflowTick).cards[i].heading == TitleOf(ss[i].content).title.value
      {
        SectionHeadingSpec(ss[i].key, ss[i].content);
      }
    }
  }

  /** Right after a load every card is closed. */
  lemma LoadedCardsClosed(ss: seq<Section>, init: map<string, bool>, reflowTick: map<string, nat>)
    requires forall k :: k in init ==> !init[k]
    ensures forall c :: c in RenderView(Some(ss), init, reflowTick).cards ==> !c.isOpen
  {
  }

  /** A toggle flips the cards of that key and no other card. */
  lemma ToggleFlipsOnlyItsCards(ss: seq<Section>, m: map<string, bool>, t: map<string, nat>, key: string, i: nat)
    requires i < |ss|
    ensures var before := RenderView(Some(ss), m, t).cards[i];
      var after := RenderView(Some(ss), ToggleUpdate(m, key), t).cards[i];
      && after.isOpen == (if ss[i].key == key then !before.isOpen else before.isOpen)
      && after.tick == before.tick && after.heading == before.heading && after.body == before.body
  {
    if ss[i].key != key && ss[i].key in m {
      assert ToggleUpdate(m, key)[ss[i].key] == m[ss[i].key];
    }
  }

  /** The view state of the component. */
  class Viewer {
    var helpSections: Option<seq<Section>>
    var availableImages: seq<string>
    var openMap: map<string, bool>
    var reflowTick: map<string, nat>

    /**
     * Once sections are loaded, the open map has exactly their keys. The handlers keep this as
     * long as they are called with section keys, which is all the rendered cards pass.
     */
    predicate Valid()
      reads this
    {
      helpSections.Some? ==> openMap.Keys == KeySet(helpSections.value)
    }

    /** The initial `useState` values. */
    constructor ()
      ensures Valid()
      ensures helpSections == None && availableImages == [] && openMap == map[] && reflowTick == map[]
    {
      helpSections := None;
      availableImages := [];
      openMap := map[];
      reflowTick := map[];
    }

    /** The view of the current state. */
    function View(): View
      reads this
    {
      RenderView(helpSections, openMap, reflowTick)
    }

    /**
     * The part of the load effect after the version fetch. `translations` is what
     * `fetchTranslationsFromAzure` returned (None for null or an error). Only `openMap`
     * is reset; `reflowTick` keeps its entries.
     */
    method LoadSections(translations: Option<seq<Section>>)
      modifies this
      ensures Valid()
      ensures helpSections == translations
      ensures translations.Some? ==> openMap.Keys == KeySet(translations.value) && forall k :: k in openMap ==> !openMap[k]
      ensures translations.None? ==> openMap == old(openMap)
      ensures reflowTick == old(reflowTick) && availableImages == old(availableImages)
    {
      helpSections := translations;
      if translations.Some? {
        var keys := Keys(translations.value);
        var init := InitOpenMap(keys);
        assert KeySet(translations.value) == set i | 0 <= i < |keys| :: keys[i] by {
          forall k | k in KeySet(translations.value) ensures k in set i | 0 <= i < |keys| :: keys[i] {
            var i :| 0 <= i < |translations.value| && translations.value[i].key == k;
            assert keys[i] == k;
          }
        }
        openMap := init;
      }
    }

    /** The images effect: `fetchAvailableImages("en").then(setAvailableImages)`. */
    method LoadImages(resolver: ContentResolver, response: ImagesResponse) returns (request: Option<string>)
      modifies this, resolver
      ensures Valid() <==> old(Valid())
      ensures "en" in old(resolver.cachedImages) ==>
        request == None && availableImages == old(resolver.cachedImages)["en"] && resolver.cachedImages == old(resolver.cachedImages)
      ensures "en" !in old(resolver.cachedImages) ==> request == Some(AssetUrl(resolver.cachedVersion, LanguageCode, "index.json"))
      ensures "en" !in old(resolver.cachedImages) && response.ImagesLoaded? ==>
        availableImages == response.images.GetOr([]) && resolver.cachedImages == old(resolver.cachedImages)["en" := availableImages]
      ensures "en" !in old(resolver.cachedImages) && response.ImagesFailed? ==>
        availableImages == [] && resolver.cachedImages == old(resolver.cachedImages)
      ensures resolver.cachedVersion == old(resolver.cachedVersion)
      ensures helpSections == old(helpSections) && openMap == old(openMap) && reflowTick == old(reflowTick)
    {
      var images;
      images, request := resolver.FetchAvailableImages(LanguageCode, response);
      availableImages := images;
    }

    /**
     * Both mount effects. The images effect builds its manifest URL before its first `await`,
     * while the load effect is still waiting for `config.json`, so the manifest is always asked
     * for under the version cached before the mount. The load effect then stores the fetched
     * version and asks for the translations under it. The two effects write disjoint state, so
     * running them in this order gives the state they leave in either order of completion.
     */
    method Mount(resolver: ContentResolver, config: ConfigResponse, translations: Option<seq<Section>>,
                 images: ImagesResponse) returns (configRequest: string, translationsRequest: string, imagesRequest: Option<string>)
      modifies this, resolver
      ensures Valid()
      ensures configRequest == ConfigUrl && translationsRequest == TranslationsUrl(resolver.cachedVersion, LanguageCode)
      ensures config.ConfigLoaded? && config.latestVersion.GetOr("") != "" ==> resolver.cachedVersion == config.latestVersion.value
      ensures config.ConfigLoaded? && config.latestVersion.GetOr("") == "" ==> resolver.cachedVersion == DefaultVersion
      ensures config.ConfigFailed? ==> resolver.cachedVersion == old(resolver.cachedVersion)
      ensures helpSections == translations
      ensures translations.Some? ==>
        && openMap.Keys == KeySet(translations.value) && (forall k :: k in openMap ==> !openMap[k])
        && forall c :: c in View().cards ==> !c.isOpen
      ensures translations.None? ==> openMap == old(openMap)
      ensures reflowTick == old(reflowTick)
      ensures "en" in old(resolver.cachedImages) ==>
        imagesRequest == None && availableImages == old(resolver.cachedImages)["en"] && resolver.cachedImages == old(resolver.cachedImages)
      ensures "en" !in old(resolver.cachedImages) ==> imagesRequest == Some(AssetUrl(old(resolver.cachedVersion), LanguageCode, "index.json"))
      ensures "en" !in old(resolver.cachedImages) && images.ImagesLoaded? ==>
        availableImages == images.images.GetOr([]) && resolver.cachedImages == old(resolver.cachedImages)["en" := availableImages]
      ensures "en" !in old(resolver.cachedImages) && images.ImagesFailed? ==>
        availableImages == [] && resolver.cachedImages == old(resolver.cachedImages)
    {
      imagesRequest := LoadImages(resolver, images);
      var version;
      version, configRequest := resolver.FetchLatestVersion(config);
      translationsRequest := TranslationsUrl(resolver.cachedVersion, LanguageCode);
      LoadSections(translations);
      if translations.Some? {
        LoadedCardsClosed(translations.value, openMap, reflowTick);
      }
    }

    /** `toggle(key)`. */
    method Toggle(key: string)
      modifies this
      ensures old(Valid()) && (helpSections.Some? ==> key in KeySet(helpSections.value)) ==> Valid()
      ensures openMap == ToggleUpdate(old(openMap), key)
      ensures helpSections == old(helpSections) && availableImages == old(availableImages) && reflowTick == old(reflowTick)
    {
      openMap := ToggleUpdate(openMap, key);
    }

    /** `bumpReflow(key)`, run by an image's `onLoad`. */
    method BumpReflow(key: string)
      modifies this
      ensures Valid() <==> old(Valid())
      ensures reflowTick == BumpUpdate(old(reflowTick), key)
      ensures helpSections == old(helpSections) && availableImages == old(availableImages) && openMap == old(openMap)
    {
      reflowTick := BumpUpdate(reflowTick, key);
    }

    /** The deep-link effect for the route parameter `value`: open the matched section. */
    method DeepLink(value: Option<string>) returns (scrollTo: Option<string>)
      modifies this
      ensures old(Valid()) ==> Valid()
      ensures scrollTo == DeepLinkTarget(value, helpSections)
      ensures scrollTo.Some? ==> openMap == OpenUpdate(old(openMap), scrollTo.value)
      ensures scrollTo.None? ==> openMap == old(openMap)
      ensures forall k :: IsOpen(old(openMap), k) ==> IsOpen(openMap, k)
      ensures helpSections == old(helpSections) && availableImages == old(availableImages) && reflowTick == old(reflowTick)
    {
      scrollTo := DeepLinkTarget(value, helpSections);
      if scrollTo.Some? {
        DeepLinkTargetSpec(value, helpSections);
        forall k | IsOpen(openMap, k) ensures IsOpen(OpenUpdate(openMap, scrollTo.value), k) {
          OpenNeverCloses(openMap, scrollTo.value, k);
        }
        openMap := OpenUpdate(openMap, scrollTo.value);
      }
    }
  }

  /**
   * A first mount in a fresh session: the manifest is requested under the default version
   * whatever the config says, and the translations under the version the config gives.
   */
  method FirstMountRequests(config: ConfigResponse, translations: Option<seq<Section>>, images: ImagesResponse)
    returns (translationsRequest: string, imagesRequest: Option<string>)
    ensures imagesRequest == Some(AssetUrl(DefaultVersion, LanguageCode, "index.json"))
    ensures config.ConfigLoaded? && config.latestVersion.GetOr("") != "" ==>
      translationsRequest == TranslationsUrl(config.latestVersion.value, LanguageCode)
    ensures (config.ConfigFailed? || config.latestVersion.GetOr("") == "") ==>
      translationsRequest == TranslationsUrl(DefaultVersion, LanguageCode)
  {
    var resolver := new ContentResolver();
    var viewer := new Viewer();
    var configRequest;
    configRequest, translationsRequest, imagesRequest := viewer.Mount(resolver, config, translations, images);
  }
}
