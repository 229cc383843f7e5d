/**
 * The older help viewer: it renders every section's markdown as it is, with no
 * title extraction and no open/closed state; its deep link only scrolls.
 */
module LegacyHelpViewer {
  import opened Optional
  import opened JsString
  import opened MarkdownUtils
  import opened HelpContent
  import opened TitleExtraction
  import HelpViewer

  /** One rendered card: the section key (its element id) and the markdown shown. */
  datatype LegacyCard = LegacyCard(key: string, markdown: string)

  /** What the container shows. */
  datatype LegacyView = Loading | Sections(cards: seq<LegacyCard>)

  /** The render: a loading message until sections are set, else each section's content unmodified. */
  function Render(sections: Option<seq<Section>>): (v: LegacyView)
    ensures sections.None? <==> v.Loading?
    ensures sections.Some? ==>
      && |v.cards| == |sections.value|
      && forall i :: 0 <= i < |sections.value| ==> v.cards[i] == LegacyCard(sections.value[i].key, sections.value[i].content)
  {
    match sections
    case None => Loading
    case Some(ss) => Sections(seq(|ss|, i requires 0 <= i < |ss| => LegacyCard(ss[i].key, ss[i].content)))
  }

  /**
   * Where the two viewers agree: both show the loading message for the same states, one
   * card per section in the same order, and for a section with no heading line the newer
   * viewer shows the key as heading over the same markdown the older one shows.
   */
  lemma NewerAgreesWithoutHeading(sections: Option<seq<Section>>, openMap: map<string, bool>, reflowTick: map<string, nat>)
    ensures Render(sections).Loading? <==> HelpViewer.RenderView(sections, openMap, reflowTick).Loading?
    ensures sections.Some? ==>
      var legacy := Render(sections).cards;
      var newer := HelpViewer.RenderView(sections, openMap, reflowTick).cards;
      && |legacy| == |newer|
      && forall i :: 0 <= i < |legacy| ==>
        && legacy[i].key == newer[i].key
        && (!HasHeadingLine(SplitLines(legacy[i].markdown)) ==>
              newer[i].heading == legacy[i].key && newer[i].body == legacy[i].markdown)
  {
    HelpViewer.RenderViewSpec(sections, openMap, reflowTick);
    if sections.Some? {
      var ss := sections.value;
      forall i | 0 <= i < |ss| ensures !HasHeadingLine(SplitLines(ss[i].content)) ==> TitleOf(ss[i].content).title.None? && TitleOf(ss[i].content).body == ss[i].content {
        TitleOfNoHeading(ss[i].content);
      }
    }
  }

  /** The older viewer's state: the sections and the image list, nothing per section. */
  class LegacyViewer {
    var helpSections: Option<seq<Section>>
    var availableImages: seq<string>

    /** The initial `useState` values. */
    constructor ()
      ensures helpSections == None && availableImages == []
    {
      helpSections := None;
      availableImages := [];
    }

    /** The view of the current state. */
    function View(): LegacyView
      reads this
    {
      Render(helpSections)
    }

    /**
     * Both mount effects. This viewer never calls `fetchLatestVersion`, so the manifest and
     * the translations are both requested under the version the resolver already holds,
     * and that version stays as it was.
     */
    method Mount(resolver: ContentResolver, translations: Option<seq<Section>>, images: ImagesResponse)
      returns (translationsRequest: string, imagesRequest: Option<string>)
      modifies this, resolver
      ensures resolver.cachedVersion == old(resolver.cachedVersion)
      ensures translationsRequest == TranslationsUrl(old(resolver.cachedVersion), LanguageCode)
      ensures helpSections == translations && View() == Render(translations)
      ensures "en" in old(resolver.cachedImages) ==>
        imagesRequest == None && availableImages == old(resolver.cachedImages)["en"] && resolver.cachedImages == old(resolver.cachedImages)
      ensures "en" !in old(resolver.cachedImages) ==> imagesRequest == Some(AssetUrl(old(resolver.cachedVersion), LanguageCode, "index.json"))
      ensures "en" !in old(resolver.cachedImages) && images.ImagesLoaded? ==>
        availableImages == images.images.GetOr([]) && resolver.cachedImages == old(resolver.cachedImages)["en" := availableImages]
      ensures "en" !in old(resolver.cachedImages) && images.ImagesFailed? ==>
        availableImages == [] && resolver.cachedImages == old(resolver.cachedImages)
    {
      var found;
      found, imagesRequest := resolver.FetchAvailableImages(LanguageCode, images);
      availableImages := found;
      translationsRequest := TranslationsUrl(resolver.cachedVersion, LanguageCode);
      helpSections := translations;
    }
  }

  /**
   * A first mount in a fresh session: both files are requested under the default version,
   * which is also the version every rendered image URL then uses.
   */
  method FirstMountRequests(translations: Option<seq<Section>>, images: ImagesResponse)
    returns (translationsRequest: string, imagesRequest: Option<string>, renderVersion: string)
    ensures imagesRequest == Some(AssetUrl(DefaultVersion, LanguageCode, "index.json"))
    ensures translationsRequest == TranslationsUrl(DefaultVersion, LanguageCode)
    ensures renderVersion == DefaultVersion
  {
    var resolver := new ContentResolver();
    var viewer := new LegacyViewer();
    translationsRequest, imagesRequest := viewer.Mount(resolver, translations, images);
    renderVersion := resolver.cachedVersion;
  }
}
