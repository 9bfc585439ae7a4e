# Portfolio page controllers, modelled in Dafny

This project models the preference, text-swap and navigation-state logic of
the portfolio site's `main.js`: the dark/light theme toggle, the
French/English language toggle with its translation tables, the scroll-reveal
rule with its one-frame throttle, and the active navigation-link highlighter.
Browser state is replaced by plain Dafny state:

- `localStorage` is the class `Browser.LocalStorage`, a `map<string, string>`.
- The root element's `data-theme` and `data-lang` attributes are `Option<string>` fields of `Browser.Document`.
- The `[data-translate]` elements are an `array` of `(key, text)` records on the same `Browser.Document`.
- Bounding boxes, section offsets and `scrollY` are parameters. They use exact `real` numbers.
- Timers and frame callbacks are explicit pending state, which methods commit one at a time (`ScrollAnimations.RunFrame`, `ScrollAnimations.RunTimer`).

Modules:

- `Wrappers` holds `Option`.
- `Browser` holds storage, the document, and the `getItem(k) || fallback` idiom as `OrElse`. In that idiom, a missing entry and an empty string both fall back.
- `Theme` holds `ThemeToggle`.
- `Language` holds the tables, the text swap and `LanguageToggle`.
- `ScrollReveal` holds `ScrollAnimations`.
- `Navigation` holds `NavigationActive`.

Behaviour of the code worth knowing:

- The code does not keep exactly one link active. When no section contains the probe point, the links keep their state. When no href matches, none is active. Duplicate hrefs can leave several active. `Navigation.HighlightUnique` states when exactly one is active.
- The stored language is not limited to `fr` and `en`: any non-empty stored value is kept. An unknown one sets `data-lang`, swaps no text, and the next click goes to `fr`.
- A section without an `id` is matched against the href `#null`, because the template literal turns `null` into that string. A section whose id is `"null"` is therefore matched by the same links (`Navigation.HrefOfNullClash`).

## Model

| member | source | states |
|---|---|---|
| `Browser.OrElse` | main.js:327 | A present, non-empty stored value is returned as is; an absent or empty one gives the default; a non-empty default gives a non-empty result |
| `Browser.LocalStorage.GetItem` | main.js:327 | Reading a key gives its stored value exactly when the key is present |
| `Browser.LocalStorage.SetItem` | main.js:350 | Writing a key sets exactly that entry and leaves every other entry as it was |
| `Theme.Normalize` | main.js:333-338 | The load branch keeps the `data-theme` attribute exactly when the value is "light" |
| `Theme.LoadTheme` | main.js:327-339 | On load the theme is light exactly when the stored value is the string "light"; an absent, empty or any other value gives dark |
| `Theme.Name` | main.js:350 | The persisted theme string is non-empty, and reloading from it restores the same theme |
| `Theme.Attribute` | main.js:333-338 | `data-theme` is present (and equals "light") exactly for the light theme; dark removes it |
| `Theme.Toggled` | main.js:343-349 | A click always changes the theme |
| `Theme.ToggleTwice` | main.js:342-351 | Two clicks restore both the theme and the root attribute |
| `Theme.AttributeInjective` | main.js:333-349 | The root attribute determines the theme |
| `Theme.ThemeToggle.constructor` | main.js:325-340 | The theme is loaded from storage, the root attribute matches it, and storage is not written |
| `Theme.ThemeToggle.Click` | main.js:342-351 | The theme flips, the attribute follows it, and storage gains exactly `theme := name`, which loads back as the new theme |
| `Language.TableFor` | main.js:363-430 | A language selects entries exactly when it is "fr" or "en"; a known language's table has the common key set and no empty text |
| `Language.LoadLang` | main.js:362 | With no stored language, or an empty one, the language is "fr"; a non-empty stored value is kept as is; the result is never empty |
| `Language.ToggledLang` | main.js:441 | A click yields "fr" or "en", and yields "en" exactly when the language was "fr" |
| `Language.ToggledLangTwice` | main.js:440-444 | Two clicks from "fr" or "en" return to it; from an unknown language they end at "en" |
| `Language.TablesSameKeys` | main.js:364-428 | The French and English tables have the same key set |
| `Language.TablesNonEmpty` | main.js:364-428 | Neither table has an empty text |
| `Language.FrenchNonEmpty` | main.js:364-396 | No French text is empty |
| `Language.EnglishNonEmpty` | main.js:397-429 | No English text is empty |
| `Language.KnownLanguageHasText` | main.js:454 | For "fr" or "en", a key has non-empty text exactly when it is one of the 31 table keys |
| `Language.Relabel` | main.js:453-455 | One element keeps its key, and is either unchanged or takes the table's text for its key when that text is non-empty |
| `Language.Relabeled` | main.js:452-456 | A swap keeps the number of elements and each element's key in place |
| `Language.RelabeledAt` | main.js:452-456 | After a swap each element keeps its key and position; it has the table's text exactly when the table has non-empty text for its key, and is unchanged otherwise |
| `Language.RelabeledUnknown` | main.js:454 | Swapping to an unknown language changes no element |
| `Language.RelabeledIdempotent` | main.js:448-458 | Applying a language twice equals applying it once |
| `Language.RelabeledOverrides` | main.js:452-456 | A later swap wipes out an earlier one when every key the earlier table has text for also has text in the later table |
| `Language.RoundTrip` | main.js:440-444 | French, then English, then French gives the same texts as one switch to French, and the same holds the other way round |
| `Language.SwapTexts` | main.js:452-457 | The in-place walk over the tagged elements leaves them as the swap of their previous contents under the table |
| `Language.LanguageToggle.constructor` | main.js:361-436 | The language is loaded from storage, `data-lang` is set to it, its table is applied to every tagged element, and storage is not written |
| `Language.LanguageToggle.SetLanguage` | main.js:448-458 | `data-lang` becomes the language, and the tagged elements become the swap of their previous contents under that language's table |
| `Language.LanguageToggle.Click` | main.js:440-444 | The language flips, is applied to the elements, and storage gains exactly `lang := language`, which loads back as the same language |
| `ScrollReveal.Scheduled` | main.js:235-245 | One pass schedules valid element indices in strictly increasing (document) order, each at most once |
| `ScrollReveal.NotScheduledBelowTrigger` | main.js:233-239 | An element whose top is at or below 75% of the viewport height is not visible and is not scheduled |
| `ScrollReveal.ScheduledIff` | main.js:237-239 | An element is scheduled exactly when its top is above 75% of the viewport height, its bottom is below the viewport top, and it does not yet carry the marker |
| `ScrollReveal.ScrollAnimations.constructor` | main.js:209-216 | The controller starts with no frame pending and runs one pass over the initial viewport |
| `ScrollReveal.ScrollAnimations.CheckElements` | main.js:231-246 | A pass appends exactly the scheduled indices to the pending timers and marks nothing itself |
| `ScrollReveal.ScrollAnimations.OnScroll` | main.js:220-228 | After a scroll event the guard is set and one frame is pending; if the guard was already set, nothing more is requested; at most one frame is ever pending |
| `ScrollReveal.ScrollAnimations.RunFrame` | main.js:222-225 | The pending frame runs one pass and releases the guard, leaving no frame pending |
| `ScrollReveal.ScrollAnimations.RunTimer` | main.js:241-243 | A firing timer adds its element to the marked set, never removes a marker, and leaves the other pending timers |
| `Navigation.HrefOf` | main.js:306-311 | The href a section is matched against is "#" followed by its id, or "#null" when it has no id |
| `Navigation.HrefOfDistinct` | main.js:306-311 | Sections with different present ids are matched by different hrefs |
| `Navigation.HrefOfNullClash` | main.js:306-311 | A section without an id and a section with id "null" are matched by the same href |
| `Navigation.ContainsHalfOpen` | main.js:308 | A section of positive height contains its top edge but never its bottom edge, and a section directly below it shares no point with it |
| `Navigation.LastContaining` | main.js:303-308 | Finds the last section whose half-open interval contains the point; it is None exactly when no section contains it |
| `Navigation.Highlight` | main.js:309-314 | One inner pass keeps every href and leaves a link active exactly when its href equals the target |
| `Navigation.ActiveAfter` | main.js:303-316 | An update keeps the number of links and every href, and leaves the links unchanged when no section contains the point |
| `Navigation.ActiveAfterSpec` | main.js:301-316 | After an update no href changes; with no containing section every link is unchanged; otherwise a link is active exactly when its href is "#" + id of the last containing section |
| `Navigation.HighlightOverrides` | main.js:303-316 | A later containing section's highlight wipes out an earlier one, so the last one wins |
| `Navigation.HighlightUnique` | main.js:309-314 | With distinct hrefs, at most one link is active after a highlight, and exactly one when some link matches |
| `Navigation.ActiveAfterStep` | main.js:303-316 | Scanning one more section re-highlights when it contains the point and changes nothing otherwise |
| `Navigation.NavigationActive.constructor` | main.js:286-298 | Construction runs one update for the initial scroll position |
| `Navigation.NavigationActive.UpdateActiveLink` | main.js:300-317 | The nested in-place loops leave the links exactly as the last containing section prescribes, or unchanged when no section contains `scrollY + 150` |

## Left out

- The animated particle background (`AnimatedGrid`, main.js:13-138): floating-point integration, square roots, random initialisation, the clock and canvas drawing.
- The custom cursor (`CustomCursor`, main.js:144-202): floating-point smoothing written to styles, and mouse event wiring.
- Smooth in-page scrolling and the scroll-indicator click (main.js:253-279, 506-518): thin calls to the browser's scrolling.
- The unused timer-based `throttle` helper (main.js:529-539).
- The start-up wiring (main.js:465-522). It constructs `ScrollProgress`, `BackToTop`, `MobileMenu`, `EnhancedSmoothScroll` and `StaggeredAnimations`, none of which are defined in `main.js`; they are not part of this model.
- Event registration itself. A click handler exists only when its button is on the page; `Click` models the handler once registered.
- `ScrollReveal.ScrollAnimations.RunTimer`: the `data-delay` value is not modelled. Any pending timer may fire next, which covers every order the delays could produce.
- Floating-point rounding: boxes, offsets and the 0.75 factor are exact reals.
- JavaScript property lookup through the object prototype (for example a language or key named `toString`): the tables are plain maps with only their own entries.
- The element list is fixed when each controller is built. Elements added to or removed from the page later are not modelled.
