# Help-content viewer: a Dafny model

This project models the help-content viewer of the ShopifyHelp repository. The viewer shows a
list of help sections. Each section is a key and a markdown body, and both are loaded from a
local `/help` folder. The project models three source files:

- `markdownUtils.ts`: the content resolver. It builds image URLs, parses the `screenshot:` /
  `icon:` alt-text convention, and keeps two module-level caches: the help version and each
  language's image manifest.
- the newer viewer (`src/Components/HelpComponent/HelpComponent.tsx`). It takes each section's
  first H1–H3 line out of the markdown and shows it as the card heading. It keeps, per section,
  an open/closed map and a reflow counter. A route parameter opens the section whose key it
  contains.
- the older viewer (`gs1assistant/react-app/src/Components/HelpComponent/HelpComponent.tsx`).
  It shows the markdown unmodified, and its route parameter only scrolls. It never calls
  `fetchLatestVersion`.

Modules, one file each:

- `Optional` (`optional.dfy`): `Option`, which stands for JavaScript `null` or `undefined`.
- `JsString` (`js_string.dfy`): the string built-ins the code relies on:
  - the ECMAScript whitespace set of `\s` and `trim`;
  - `includes`, `startsWith`, `endsWith`, and `replace` with a string pattern;
  - `split("\n")` and `join("\n")`;
  - `toLowerCase`.
- `MarkdownUtils` (`markdown_utils.dfy`): `markdownUtils.ts`. The two caches are the fields
  of the class `ContentResolver`, and `fetchLatestVersion` and `fetchAvailableImages` are
  its methods. Each network answer is an input value: `ConfigResponse` or `ImagesResponse`.
- `HelpContent` (`help_content.dfy`): what both viewers define identically:
  - the section list;
  - the deep-link key match (`Object.keys(...).find(k => lower.includes(k.toLowerCase()))`);
  - the ReactMarkdown `img` resolver.
- `TitleExtraction` (`title_extraction.dfy`): `pickTitle`. The regular expression
  `/^#{1,3}\s+(.+?)\s*$/` is the ghost predicate `HeadingMatch`, read on one decomposition of
  the line. `HeadingTitle` computes the match, and it is proved equal to that predicate. The
  title is proved to be the trimmed capture of every way the pattern can match. `PickTitle`
  is the source's loop with its early return, proved equal to the function `TitleOf`.
- `HelpViewer` (`help_viewer.dfy`): the newer viewer's state as the class `Viewer`:
  - the fields are `helpSections`, `availableImages`, `openMap` and `reflowTick`;
  - the mount effects, `toggle`, `bumpReflow` and the deep-link effect are its methods;
  - the updater functions they pass to `setState` are functions of this module;
  - the rendered cards are `RenderView`.
- `LegacyHelpViewer` (`legacy_help_viewer.dfy`): the older viewer's render, its state as the
  class `LegacyViewer` with its mount effects, and the lemma that relates its render to the
  newer one.

Where the code behaves in a way that is easy to misread, the model follows the code:

- The load effect resets only `openMap`. `reflowTick` keeps its old entries.
- The image manifest is an array, not a set. Its order decides which entry a source
  resolves to, and the first entry ending in the decoded source wins.
- The deep-link test `if (matchKey)` is a truthiness test. If an empty key is the first key
  that matches, the search stops there, and nothing opens.
- The `img` test `foundImage ? ... : src` is also a truthiness test. An empty manifest entry
  counts as not found, so the raw source is kept.
- A line of 1–3 hashes followed only by whitespace is a heading only when it has at least two
  whitespace characters, and some character after the first is not a line terminator. Then
  its title is the empty string, and the card shows that empty title rather than the key.
  `"#  "` is such a heading. `"# "` is not: `\s+` takes the one space and `(.+?)` has nothing
  left. `"#\t\r"` is not either, because `.` does not match `\r`. Those lines keep the key
  as heading.
- Both viewers call `getAzureImageUrl`. The resolver in this repository exports that name
  as `getLocalImageUrl`, which reads `cachedVersion` when the image is rendered.
  `RenderImage` therefore takes that version as a parameter.
- The newer viewer's images effect builds the manifest URL synchronously, while its load
  effect is still awaiting `config.json`. So the manifest is always requested under the
  version cached before the mount, which is `"v1"` in a fresh session. The translations are
  requested under the fetched version.
- The older viewer never fetches the config. Its manifest, its translations and its image
  URLs all use the version the resolver holds, which is `"v1"` unless another caller has
  stored a different one.

## Model

| member | source | states |
|---|---|---|
| MarkdownUtils.AssetUrlInjective | gs1assistant/react-app/src/Components/HelpComponent/markdownUtils.ts:85-87 | Take an image URL `/help/{version}/assets/{lang}/{name}` whose version and language contain no slash. It determines its version, its language and its image name. |
| MarkdownUtils.ParseImageAlt | gs1assistant/react-app/src/Components/HelpComponent/markdownUtils.ts:92-107 | An absent or empty alt gives `("", defaultImage)`. A `screenshot:` prefix gives class screenshot, and that prefix followed by the clean alt is the alt. Otherwise an `icon:` prefix gives class icon in the same way. Any other alt is kept, with class defaultImage. |
| MarkdownUtils.AltRoundTrip | gs1assistant/react-app/src/Components/HelpComponent/markdownUtils.ts:95-106 | Every present alt is the chosen class's prefix followed by the clean alt. |
| MarkdownUtils.ScreenshotBeforeIcon | gs1assistant/react-app/src/Components/HelpComponent/markdownUtils.ts:98-103 | The `screenshot:` check comes first, so `"screenshot:icon:x"` gives class screenshot and alt `"icon:x"`. |
| MarkdownUtils.ContentResolver.constructor | gs1assistant/react-app/src/Components/HelpComponent/markdownUtils.ts:7-8 | The caches start as version `"v1"` and no images. |
| MarkdownUtils.ContentResolver.FetchLatestVersion | gs1assistant/react-app/src/Components/HelpComponent/markdownUtils.ts:10-28 | It always requests `/help/config.json`. On a loaded config, the cached and returned version is `latestVersion` when that is non-empty, else `"v1"`. On a failure it returns `"v1"` and keeps the cached version. The image cache is unchanged. |
| MarkdownUtils.ContentResolver.FetchAvailableImages | gs1assistant/react-app/src/Components/HelpComponent/markdownUtils.ts:31-60 | A cached language, even one cached with an empty list, is returned without a request, and neither cache changes. On a miss, `/help/{cachedVersion}/assets/{lang}/index.json` is requested. A success stores `images` (or `[]`) under that language only and returns it. A failure returns `[]` and stores nothing. |
| MarkdownUtils.SecondFetchHitsCache | gs1assistant/react-app/src/Components/HelpComponent/markdownUtils.ts:32-53 | After an answered fetch, a second fetch for the same language makes no request and returns the same list, whatever the network would say. |
| HelpContent.FindKey | src/Components/HelpComponent/HelpComponent.tsx:81-83 | The result is the first key, in key order, whose lower-cased form occurs in the lower-cased parameter. It is absent exactly when no key matches. |
| HelpContent.DeepLinkTargetSpec | src/Components/HelpComponent/HelpComponent.tsx:79-85 | No target when the parameter is absent or empty, or when no sections are loaded. A target is the first section, in order, whose key matches, and its key is non-empty. With no target, every matching key has an empty key at or before it. The older viewer's lines 77-86 apply the same test. |
| HelpContent.DeepLinkCaseInsensitive | src/Components/HelpComponent/HelpComponent.tsx:80-82 | The target depends on the parameter only through its lower-cased form. |
| HelpContent.FindEndsWith | gs1assistant/react-app/src/Components/HelpComponent/HelpComponent.tsx:120-122 | The result is the first manifest entry that ends with the decoded source. It is absent exactly when no entry does. |
| HelpContent.RenderImageSpec | gs1assistant/react-app/src/Components/HelpComponent/HelpComponent.tsx:115-123 | An absent or empty source gives no image, and a failing decode gives the decode error. Otherwise the alt and class come from the alt parser. The source becomes the asset URL (`"en"`, cached version) of the first manifest entry ending in the decoded source, or stays the raw undecoded source when no entry does. The newer viewer's lines 150-159 are the same resolver. |
| HelpContent.RenderImageUsesLocalUrl | gs1assistant/react-app/src/Components/HelpComponent/HelpComponent.tsx:120-123 | A found, non-empty manifest entry becomes `getAzureImageUrl("en", entry)`, read from the resolver's version at render time. The newer viewer's lines 157-159 do the same. |
| JsString.Contains | src/Components/HelpComponent/HelpComponent.tsx:81-83 | `includes` holds exactly when the substring occurs at some index. |
| JsString.TrimIs | src/Components/HelpComponent/HelpComponent.tsx:24 | `trim` removes exactly the leading and trailing runs of ECMAScript whitespace. |
| JsString.JoinSplit | src/Components/HelpComponent/HelpComponent.tsx:20-26 | Splitting on line feeds and joining with line feeds gives back the string. |
| JsString.SplitJoin | src/Components/HelpComponent/HelpComponent.tsx:25-26 | Joining at least one line, none with a line feed, and splitting again gives back those lines. |
| JsString.LowerIdempotent | src/Components/HelpComponent/HelpComponent.tsx:80-82 | Lower-casing twice is lower-casing once. |
| TitleExtraction.HeadingTitleSpec | src/Components/HelpComponent/HelpComponent.tsx:22-24 | A line yields a title exactly when it matches the pattern. The pattern is 1–3 hashes, at least one whitespace character, a capture with no line terminator, then optional whitespace to the end. The title is the trimmed capture of every match. |
| TitleExtraction.FourHashesNotHeading | src/Components/HelpComponent/HelpComponent.tsx:22 | Every line that starts with four hashes is not a heading. |
| TitleExtraction.NoSpaceNotHeading | src/Components/HelpComponent/HelpComponent.tsx:22 | A line whose leading hashes end the line, or are followed directly by a non-whitespace character (`#Title`), is not a heading. |
| TitleExtraction.TrailingBlanksTrimmed | src/Components/HelpComponent/HelpComponent.tsx:22-24 | Take 1–3 hashes, then whitespace, then a text with no line terminator that neither starts nor ends with whitespace, then any trailing whitespace. That line is a heading, and its title is exactly the text, so `"## Two "` gives `"Two"`. |
| TitleExtraction.BlankHeading | src/Components/HelpComponent/HelpComponent.tsx:22-24 | Hashes followed only by whitespace make a heading exactly when some whitespace character after the first is not a line terminator, and its title is then empty. So `"# "` and `"#\t\r"` are not headings. |
| TitleExtraction.EmptyTitleHeading | src/Components/HelpComponent/HelpComponent.tsx:22-24 | `"#  "` is a heading, and its title is empty. |
| TitleExtraction.StripBlankLeadSpec | src/Components/HelpComponent/HelpComponent.tsx:27 | `replace(/^\s*\n/, "")` removes a suffix-preserving prefix. That prefix is empty or all whitespace ending in a line feed, and it is the longest such prefix. The result's leading whitespace contains no line feed. |
| TitleExtraction.FirstSome | src/Components/HelpComponent/HelpComponent.tsx:21-23 | The scan stops at the first line that yields a title, and no earlier line yields one. It finds nothing exactly when no line yields a title. |
| TitleExtraction.PickTitle | src/Components/HelpComponent/HelpComponent.tsx:19-32 | The loop with its early return computes the title and body that `TitleOf` defines. |
| TitleExtraction.TitleOfNoHeading | src/Components/HelpComponent/HelpComponent.tsx:21-31 | There is a title exactly when some line matches the heading pattern. Without one, the body is the markdown unchanged. |
| TitleExtraction.TitleOfHeading | src/Components/HelpComponent/HelpComponent.tsx:21-28 | With a title, the title line is the first matching line, and the title is its trimmed capture. The body is every other line in order, joined by line feeds, with the blank lead stripped. |
| TitleExtraction.BodyKeepsOtherLines | src/Components/HelpComponent/HelpComponent.tsx:25-26 | Before the strip, splitting the body gives back exactly the other lines, later heading lines included. |
| TitleExtraction.SectionHeadingSpec | src/Components/HelpComponent/HelpComponent.tsx:117 | Only a missing title falls back to the key. An empty title is shown as it is. |
| HelpViewer.ToggleUpdate | src/Components/HelpComponent/HelpComponent.tsx:92 | The toggled key ends up present with its open state negated (a missing key reads as closed). Every other entry is unchanged. |
| HelpViewer.ToggleTwice | src/Components/HelpComponent/HelpComponent.tsx:92 | Toggling a key twice restores every key's `!!openMap[k]` view. |
| HelpViewer.BumpUpdate | src/Components/HelpComponent/HelpComponent.tsx:95-96 | The bumped key's tick becomes the old tick plus one (a missing tick counts as 0), so it is at least 1. Every other entry is unchanged. |
| HelpViewer.BumpGrows | src/Components/HelpComponent/HelpComponent.tsx:95-96 | A bump never lowers a tick, and it leaves other keys' ticks as they were. |
| HelpViewer.OpenUpdate | src/Components/HelpComponent/HelpComponent.tsx:85 | The matched key becomes open, and every other entry is unchanged. |
| HelpViewer.OpenNeverCloses | src/Components/HelpComponent/HelpComponent.tsx:85 | The deep-link update never closes a section. Afterwards, exactly the matched key and the previously open keys are open. It is idempotent. |
| HelpViewer.InitOpenMap | src/Components/HelpComponent/HelpComponent.tsx:58-60 | The initial map has exactly the section keys, all closed. |
| HelpViewer.RenderViewSpec | src/Components/HelpComponent/HelpComponent.tsx:109-119 | A loading message shows until sections are set. Then there is one card per section, in order. Each card shows the picked title (else the key) over the body with the title line removed. |
| HelpViewer.LoadedCardsClosed | src/Components/HelpComponent/HelpComponent.tsx:57-60 | Right after a load, every card is collapsed. |
| HelpViewer.ToggleFlipsOnlyItsCards | src/Components/HelpComponent/HelpComponent.tsx:118-132 | A toggle flips the open state of the cards with that key and no other card. A card's heading, body and tick are unchanged. |
| HelpViewer.Viewer.constructor | src/Components/HelpComponent/HelpComponent.tsx:39-44 | The state starts as no sections, no images, an empty open map and empty ticks. |
| HelpViewer.Viewer.LoadSections | src/Components/HelpComponent/HelpComponent.tsx:54-64 | Loaded translations replace the sections and reset the open map to the section keys, all closed. A failed load clears the sections and keeps the open map. The ticks and images are unchanged. |
| HelpViewer.Viewer.LoadImages | src/Components/HelpComponent/HelpComponent.tsx:74 | The image list and the resolver's image cache are what `fetchAvailableImages("en")` leaves. On a cached `"en"` there is no request and the cache is unchanged. On a miss, the manifest is requested under the cached version. A loaded answer is stored under `"en"` only and becomes the list (`[]` without `images`). A failure gives `[]` and stores nothing. The sections, open map and ticks are unchanged. |
| HelpViewer.Viewer.Mount | src/Components/HelpComponent/HelpComponent.tsx:49-75 | The manifest is requested under the version cached before the mount, because the images effect builds its URL before the config answer arrives. The version then comes from the config, with the fallbacks of `fetchLatestVersion`. The translations are requested under that new version. Loaded sections replace the old ones with an open map of exactly their keys, all closed; a failed load keeps the open map. The image list and image cache end as `LoadImages` states. The ticks are unchanged. |
| HelpViewer.Viewer.Toggle | src/Components/HelpComponent/HelpComponent.tsx:92 | The open map becomes the toggle update of the old map, and nothing else changes. Toggling a section key keeps the open map's keys equal to the section keys. |
| HelpViewer.Viewer.BumpReflow | src/Components/HelpComponent/HelpComponent.tsx:95-96 | The ticks become the bump update of the old ticks, and nothing else changes. |
| HelpViewer.Viewer.DeepLink | src/Components/HelpComponent/HelpComponent.tsx:79-90 | The matched section is the scroll target and is opened. With no match the open map is untouched. No section is ever closed, the open map's keys stay the section keys, and nothing else changes. |
| HelpViewer.FirstMountRequests | src/Components/HelpComponent/HelpComponent.tsx:49-75 | In a fresh session the manifest is requested under `"v1"`, whatever the config says. The translations are requested under the config's non-empty `latestVersion`, else under `"v1"`. |
| LegacyHelpViewer.Render | gs1assistant/react-app/src/Components/HelpComponent/HelpComponent.tsx:100-141 | A loading message shows until sections are set. Then there is one card per section, in key order, whose markdown is the section content unmodified. |
| LegacyHelpViewer.LegacyViewer.constructor | gs1assistant/react-app/src/Components/HelpComponent/HelpComponent.tsx:31-32 | The state starts as no images and no sections. |
| LegacyHelpViewer.LegacyViewer.Mount | gs1assistant/react-app/src/Components/HelpComponent/HelpComponent.tsx:46-73 | This viewer never fetches the config. The manifest (on a cache miss) and the translations are both requested under the version the resolver already holds, and that version is not changed. The sections become the translations. The image list and cache follow `fetchAvailableImages("en")`. |
| LegacyHelpViewer.FirstMountRequests | gs1assistant/react-app/src/Components/HelpComponent/HelpComponent.tsx:46-73 | In a fresh session the older viewer requests the manifest and the translations under `"v1"`, and its image URLs use `"v1"`. |
| LegacyHelpViewer.NewerAgreesWithoutHeading | gs1assistant/react-app/src/Components/HelpComponent/HelpComponent.tsx:108-137 | Both viewers load in the same states and show the same keys in the same order. For a section with no heading line, the newer viewer shows the key over the same markdown that the older viewer shows. |

## Left out

- Fetching, `response.ok`, JSON parsing and `console` logging: each fetch outcome is an input value (`ConfigResponse`, `ImagesResponse`, or the translations as `Option<seq<Section>>`).
- `fetchTranslationsFromLocal` (and its alias `fetchTranslationsFromAzure`): its request URL is `TranslationsUrl`, and the viewers' `Mount` methods state it. Reading the `help` field of the answer is left out: the result is an input of `LoadSections` and `LegacyViewer.Mount`.
- `getLocalImageUrl` has no contract of its own: it is `AssetUrl` under the current `cachedVersion`. `AssetUrlInjective` states its property, and `RenderImageUsesLocalUrl` ties it to the rendered images.
- Rendering: the Polaris components and ReactMarkdown with its plugins are left out. So are the `Collapsible` remount through its `key`, `scrollIntoView`, `setTimeout`, the i18n `t()` call and the CSS-module class lookup `styles[className] || styles.defaultImage`. The model stops at the card values (key, heading, body, open state, tick) and the `img` element values.
- `decodeURIComponent` is a parameter `decode` of `RenderImage`, with None for a `URIError`. UTF-8 percent-decoding is not modelled.
- HelpContent.RenderImageSpec: the resolved source is not stated for a decoded source that is empty. The parameter `decode` may return that, although `decodeURIComponent` never turns a non-empty string into an empty one.
- JsString.Lower: the model's `Lower` maps only `A`–`Z`; JavaScript's `toLowerCase` maps all of Unicode. So a non-ASCII key such as `"Überblick"` matches a route parameter case-sensitively in the model, but case-insensitively in the source.
- Strings are sequences of Unicode scalar values, not UTF-16 code units.
- HelpViewer.Viewer.Mount: the two mount effects of the newer viewer run concurrently. The manifest URL is built before the config answer arrives, so it always uses the version cached before the mount; the model states this. What is left out is the interleaving of the later answers. The two effects write disjoint state, so the model runs them in one fixed order.
- `Object.keys` order for integer-like keys: sections are an ordered sequence in key order. The plain objects `cachedImages`, `openMap` and `reflowTick` are maps, so inherited prototype keys are left out. For example, `init["__proto__"] = false` is dropped by the `__proto__` setter, and `!!openMap["__proto__"]` then reads true, so such a section would render open. The model's open map holds `false` for it.
- The older viewer's deep-link effect only scrolls, and its target is `DeepLinkTarget`, so it has no state to model.
- The language code is the constant `LanguageCode` (`"en"`, gs1assistant/react-app/src/Components/HelpComponent/HelpComponent.tsx:35-44). The commented-out language detection is not modelled.
