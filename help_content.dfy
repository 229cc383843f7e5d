/**
 * What both help-viewer components define identically: the section list they
 * render, the deep-link key match, and the ReactMarkdown `img` resolver.
 */
module HelpContent {
  import opened Optional
  import opened JsString
  import opened MarkdownUtils

  /** The language both viewers ask for (`getLanguageCode`). */
  const LanguageCode: string := "en"

  /** One entry of the `help` object: a section key and its markdown body. */
  datatype Section = Section(key: string, content: string)

  /** The keys in `Object.keys` order. */
  function Keys(sections: seq<Section>): (keys: seq<string>)
    ensures |keys| == |sections|
    ensures forall i :: 0 <= i < |sections| ==> keys[i] == sections[i].key
  {
    seq(|sections|, i requires 0 <= i < |sections| => sections[i].key)
  }

  /** `lower.includes(k.toLowerCase())`: the key, lower-cased, occurs in the lower-cased parameter. */
  predicate KeyMatches(lower: string, key: string) {
    Contains(lower, Lower(key))
  }

  /** `keys.find(k => lower.includes(k.toLowerCase()))`: the first matching key in key order. */
  function FindKey(keys: seq<string>, lower: string): (r: Option<string>)
    ensures r.None? <==> forall i :: 0 <= i < |keys| ==> !KeyMatches(lower, keys[i])
    ensures r.Some? ==> exists i :: 0 <= i < |keys| && keys[i] == r.value && KeyMatches(lower, keys[i])
                          && forall j :: 0 <= j < i ==> !KeyMatches(lower, keys[j])
  {
    if keys == [] then None
    else if KeyMatches(lower, keys[0]) then Some(keys[0])
    else
      var r := FindKey(keys[1..], lower);
      assert forall i :: 1 <= i < |keys| ==> keys[1..][i - 1] == keys[i];
      r
  }

  /**
   * The deep-link effect's target: nothing when the route parameter is absent or empty
   * or the sections are not loaded, else the first key matching case-insensitively,
   * which counts only when it is truthy (a non-empty string).
   */
  function DeepLinkTarget(value: Option<string>, sections: Option<seq<Section>>): Option<string> {
    if value.None? || value.value == "" || sections.None? then None
    else
      match FindKey(Keys(sections.value), Lower(value.value))
      case Some(k) => if k != "" then Some(k) else None
      case None => None
  }

  /** What the deep-link effect does, stated without FindKey. */
  lemma DeepLinkTargetSpec(value: Option<string>, sections: Option<seq<Section>>)
    ensures (value.None? || value == Some("") || sections.None?) ==> DeepLinkTarget(value, sections) == None
    ensures DeepLinkTarget(value, sections).Some? ==>
      var ss := sections.value;
      var lower := Lower(value.value);
      exists i :: 0 <= i < |ss| && ss[i].key == DeepLinkTarget(value, sections).value && ss[i].key != ""
        && KeyMatches(lower, ss[i].key) && forall j :: 0 <= j < i ==> !KeyMatches(lower, ss[j].key)
    ensures value.Some? && sections.Some? && value.value != "" && DeepLinkTarget(value, sections).None? ==>
      forall i :: 0 <= i < |sections.value| && KeyMatches(Lower(value.value), sections.value[i].key) ==>
        exists j :: 0 <= j <= i && sections.value[j].key == ""
  {
    if value.Some? && value.value != "" && sections.Some? {
      var ss := sections.value;
      var keys := Keys(ss);
      var lower := Lower(value.value);
      match FindKey(keys, lower)
      case None =>
      case Some(k) =>
        var i :| 0 <= i < |keys| && keys[i] == k && KeyMatches(lower, keys[i])
                 && forall j :: 0 <= j < i ==> !KeyMatches(lower, keys[j]);
        if k == "" {
          forall i' | 0 <= i' < |ss| && KeyMatches(lower, ss[i'].key)
            ensures exists j :: 0 <= j <= i' && ss[j].key == ""
          {
            assert keys[i'] == ss[i'].key;
            assert ss[i].key == "" && i <= i';
          }
        }
    }
  }

  /** The match depends on the parameter only through its lower-cased form. */
  lemma DeepLinkCaseInsensitive(value: string, sections: Option<seq<Section>>)
    ensures DeepLinkTarget(Some(value), sections) == DeepLinkTarget(Some(Lower(value)), sections)
  {
    LowerIdempotent(value);
    assert value == "" <==> Lower(value) == "";
  }

  /** `images.find(image => image.endsWith(suffix))`: the first entry ending with `suffix`. */
  function FindEndsWith(images: seq<string>, suffix: string): (r: Option<string>)
    ensures r.None? <==> forall i :: 0 <= i < |images| ==> !EndsWith(images[i], suffix)
    ensures r.Some? ==> exists i :: 0 <= i < |images| && images[i] == r.value && EndsWith(images[i], suffix)
                          && forall j :: 0 <= j < i ==> !EndsWith(images[j], suffix)
  {
    if images == [] then None
    else if EndsWith(images[0], suffix) then Some(images[0])
    else
      var r := FindEndsWith(images[1..], suffix);
      assert forall i :: 1 <= i < |images| ==> images[1..][i - 1] == images[i];
      r
  }

  /** What the `img` override renders. */
  datatype ImageElement =
    | NoImage                                                   // `return null`
    | Img(src: string, alt: string, className: ImageClass)
    | DecodeError                                               // `decodeURIComponent` threw `URIError`

  /**
   * The `img` override. `decode` is `decodeURIComponent` (None when it throws) and
   * `version` is the resolver's `cachedVersion` when the image is rendered.
   */
  function RenderImage(src: Option<string>, alt: Option<string>, availableImages: seq<string>,
                       version: string, decode: string -> Option<string>): ImageElement
  {
    if src.None? || src.value == "" then NoImage
    else
      match decode(src.value)
      case None => DecodeError
      case Some(normalizedSrc) =>
        var info := ParseImageAlt(alt);
        var found := FindEndsWith(availableImages, normalizedSrc);
        var finalSrc := if found.Some? && found.value != "" then AssetUrl(version, LanguageCode, found.value) else src.value;
        Img(finalSrc, info.cleanAlt, info.className)
  }

  /**
   * The URL an `img` resolves to is `getAzureImageUrl("en", foundImage)`, read from the
   * resolver when the image is rendered: RenderImage's version is the resolver's current one.
   */
  lemma RenderImageUsesLocalUrl(resolver: ContentResolver, src: string, alt: Option<string>, availableImages: seq<string>,
                                decode: string -> Option<string>, found: string)
    requires src != "" && decode(src).Some? && FindEndsWith(availableImages, decode(src).value) == Some(found) && found != ""
    ensures RenderImage(Some(src), alt, availableImages, resolver.cachedVersion, decode)
         == Img(resolver.GetLocalImageUrl(LanguageCode, found), ParseImageAlt(alt).cleanAlt, ParseImageAlt(alt).className)
  {
  }

  /** The resolver's contract: no image without a source, else the first manifest entry ending in the decoded source, else the raw source. */
  lemma RenderImageSpec(src: Option<string>, alt: Option<string>, availableImages: seq<string>,
                        version: string, decode: string -> Option<string>)
    ensures (src.None? || src == Some("")) ==> RenderImage(src, alt, availableImages, version, decode) == NoImage
    ensures src.Some? && src.value != "" && decode(src.value).None? ==>
      RenderImage(src, alt, availableImages, version, decode) == DecodeError
    ensures src.Some? && src.value != "" && decode(src.value).Some? && decode(src.value).value != "" ==>
      var d := decode(src.value).value;
      var r := RenderImage(src, alt, availableImages, version, decode);
      && r.Img?
      && r.alt == ParseImageAlt(alt).cleanAlt && r.className == ParseImageAlt(alt).className
      && ((forall i :: 0 <= i < |availableImages| ==> !EndsWith(availableImages[i], d)) ==> r.src == src.value)
      && forall i :: (0 <= i < |availableImages| && EndsWith(availableImages[i], d)
                      && (forall j :: 0 <= j < i ==> !EndsWith(availableImages[j], d))) ==>
                        r.src == AssetUrl(version, LanguageCode, availableImages[i])
  {
    if src.Some? && src.value != "" && decode(src.value).Some? && decode(src.value).value != "" {
      var d := decode(src.value).value;
      var found := FindEndsWith(availableImages, d);
      if found.Some? {
        var k :| 0 <= k < |availableImages| && availableImages[k] == found.value && EndsWith(availableImages[k], d)
                 && forall j :: 0 <= j < k ==> !EndsWith(availableImages[j], d);
        assert found.value != "";
        forall i | 0 <= i < |availableImages| && EndsWith(availableImages[i], d)
                   && (forall j :: 0 <= j < i ==> !EndsWith(availableImages[j], d))
          ensures i == k
        {
          assert !(i < k) && !(k < i);
        }
      }
    }
  }
}
