# View localization in Griffin.MvcContrib, modelled in Dafny

This project models two pieces of Griffin.MvcContrib's view-localization engine.

* `ViewLocalizer.Translate` turns a (controller, action, text) triple into the string a view
  shows in the current UI culture. It rejects a null or empty controller name or text. A null
  action becomes `Index`. If the repository has no prompts for the current culture, it seeds
  that language from US English (LCID 1033). If the prompt is missing, it registers it with an
  empty translation. It returns the stored translation, or else the text itself (in the default
  culture) or `{culture}:[{text}]` (in any other culture).
* `ViewLocalizationDocument.Clone` builds the document-database document of a new language
  from an existing one. Every prompt is copied with its translation blanked, the new locale id,
  and the time and principal of the change. The new document's id is the culture's name.

Files and modules:

* `wrappers.dfy` (`Wrappers`): `Option` (a nullable reference) and `Result` (a value or an
  exception).
* `cultures.dfy` (`Cultures`): a culture as its LCID and name, and the constant `English`
  (`new CultureInfo(1033)`).
* `prompts.dfy` (`Prompts`): the repository's contents, as a map from culture to a map from key
  to `TextPrompt`. It also holds the changes the localizer asks of a repository: seeding a
  language (`SeedLanguage`) and registering a prompt (`AddPrompt`).
* `repository.dfy` (`Repository`): the repository class. It has the four operations the
  localizer calls (`Exists`, `CreateForLanguage`, `GetPrompt`, `CreatePrompt`) over a
  map-valued field. The invariant `Valid()` requires every prompt to be filed under its own key.
* `view_localizer.dfy` (`ViewLocalization`): the class `ViewLocalizer` and its imperative
  `Translate` method. Beside them are `TranslateSpec`, the function that specifies `Translate`,
  and the lemmas about it. `TranslateAll` models a series of calls, used for the lemma that
  prompts are never deleted or changed.
* `view_localization_document.dfy` (`RavenDbLocalization`): `ViewPrompt`,
  `ViewLocalizationDocument` and `Clone`, as pure functions over sequences. The clock and the
  principal are parameters. The module also proves that a clone, read as the repository would
  read it, is its source with every translation blanked.

Two behaviours of the code are easy to misread, and the model follows the code in both:

* Only a null action name becomes `Index`. An empty action name is kept as it is
  (`ViewLocalizer.cs:71-72`).
* A missing language is seeded from LCID 1033, not from `DefaultCulture`
  (`ViewLocalizer.cs:76`). `TranslateSeedsFromEnglish` and
  `TranslateEffectIgnoresDefaultCulture` state this.

The code of `TextPrompt`, `ViewPrompt` and the repository interface is not part of this model.
Three assumptions are made about them:

* `TextPrompt.CreateKey` is a deterministic function whose format is unknown. The localizer
  takes it as a constructor argument (`KeyFunction`), so every result holds for any key
  derivation.
* The `ViewPrompt` copy constructor copies every field the object initializer in `Clone` does
  not set. These fields are grouped as `PromptIdentity`.
* The repository operations behave as follows. `CreateForLanguage` fails with `LanguageMissing`
  when the template language is absent and otherwise copies it with blank translations.
  `CreatePrompt` files the prompt under its key with the given translation.

## Model

| member | source | states |
|---|---|---|
| `ViewLocalization.ViewLocalizer.constructor` | source/Griffin.MvcContrib/Localization/Views/ViewLocalizer.cs:21-24 | a new localizer's default culture is US English, LCID 1033 |
| `ViewLocalization.ViewLocalizer.Translate` | source/Griffin.MvcContrib/Localization/Views/ViewLocalizer.cs:64-100 | the returned string or error, and the repository's new contents, are exactly those `TranslateSpec` gives for the old contents; the repository invariant (every prompt filed under its key) is kept |
| `ViewLocalization.TranslateSpec` | source/Griffin.MvcContrib/Localization/Views/ViewLocalizer.cs:64-100 | null/empty controller name fails with `ArgumentNull("controllerName")` and a valid controller with null/empty text fails with `ArgumentNull("text")`, both with the repository untouched; any failure leaves the repository untouched; a success is never empty and leaves the current culture in the repository; no culture is removed and no stored prompt is removed or altered; the key invariant is preserved |
| `ViewLocalization.TranslateSeedsFromEnglish` | source/Griffin.MvcContrib/Localization/Views/ViewLocalizer.cs:74-99 | for a culture the repository lacks: without an LCID 1033 language the call fails with `LanguageMissing(English)` and changes nothing; with it, the call succeeds and returns the text in the default culture and `{culture}:[{text}]` elsewhere; every existing culture keeps its prompt set; the new culture holds each English prompt with controller, action and text kept and the translation blanked, plus the template prompt for the requested key when English lacks it; every prompt of the new culture is untranslated |
| `ViewLocalization.IsNullOrEmpty` | source/Griffin.MvcContrib/Localization/Views/ViewLocalizer.cs:66-69 | a string argument is rejected exactly when it is null or empty |
| `ViewLocalization.ResolveAction` | source/Griffin.MvcContrib/Localization/Views/ViewLocalizer.cs:71-72 | a given action name is used as it is (an empty one included); the result is `Index` exactly when the action is null or is `Index` |
| `ViewLocalization.TemplatePrompt` | source/Griffin.MvcContrib/Localization/Views/ViewLocalizer.cs:84-90 | the registered prompt carries the key, controller, action and text it was made from, and no translation |
| `ViewLocalization.TranslateDefaultsNullAction` | source/Griffin.MvcContrib/Localization/Views/ViewLocalizer.cs:71-72 | a call with a null action behaves exactly like one with `Index`; an empty action is used as `""` in the key and in the registered prompt |
| `ViewLocalization.TranslateEffectIgnoresDefaultCulture` | source/Griffin.MvcContrib/Localization/Views/ViewLocalizer.cs:74-92 | what `Translate` does to the repository is the same whatever `DefaultCulture` is: seeding is from LCID 1033, not from the default culture |
| `ViewLocalization.TranslateRegistersMissingPrompt` | source/Griffin.MvcContrib/Localization/Views/ViewLocalizer.cs:80-92 | in a known culture: a present key leaves the repository unchanged; an absent key adds exactly one prompt to that culture (key, controller, resolved action — `Index` only for a null action —, text, empty translation) and changes no other culture |
| `ViewLocalization.TranslateRegistersKey` | source/Griffin.MvcContrib/Localization/Views/ViewLocalizer.cs:74-92 | after a successful call the arguments were valid and the current culture has a prompt under the derived key |
| `ViewLocalization.TranslateResult` | source/Griffin.MvcContrib/Localization/Views/ViewLocalizer.cs:79-99 | in a known culture the call succeeds with the found prompt's translation when non-empty; otherwise with the text in the default culture and `{culture}:[{text}]` in any other |
| `ViewLocalization.DisplayText` | source/Griffin.MvcContrib/Localization/Views/ViewLocalizer.cs:94-97 | a non-empty translation is returned verbatim; without one, the text when the current culture equals the default culture, the marked-up text otherwise; never empty for a non-empty text |
| `ViewLocalization.Decorate` | source/Griffin.MvcContrib/Localization/Views/ViewLocalizer.cs:97 | the fallback is the culture's name, then `:[`, then the text, then `]`, and it differs from the text |
| `ViewLocalization.TranslateIdempotent` | source/Griffin.MvcContrib/Localization/Views/ViewLocalizer.cs:64-100 | a second identical call returns the same result and leaves the repository as the first call left it |
| `ViewLocalization.TranslationRoundTrip` | source/Griffin.MvcContrib/Localization/Views/ViewLocalizer.cs:81-99 | once a non-empty translation is entered for the prompt a successful call registered, the same call returns that translation and changes nothing |
| `ViewLocalization.TranslateAllKeepsPrompts` | source/Griffin.MvcContrib/Localization/Views/ViewLocalizer.cs:74-92 | over any series of calls, every culture and every stored prompt survives unchanged |
| `ViewLocalization.TranslateAllRegistersShownTexts` | source/Griffin.MvcContrib/Localization/Views/ViewLocalizer.cs:80-92 | after any series of calls, every call that succeeded has its prompt registered in its culture |
| `Repository.ViewLocalizationRepository.Exists` | source/Griffin.MvcContrib/Localization/Views/ViewLocalizer.cs:74 | true exactly when the repository holds the culture |
| `Repository.ViewLocalizationRepository.CreateForLanguage` | source/Griffin.MvcContrib/Localization/Views/ViewLocalizer.cs:76 | fails, changing nothing, exactly when the template culture is missing; otherwise the new contents are `SeedLanguage` of the old |
| `Repository.ViewLocalizationRepository.GetPrompt` | source/Griffin.MvcContrib/Localization/Views/ViewLocalizer.cs:81-82 | returns a prompt exactly when one is stored under the key for the culture, and the prompt returned carries that key |
| `Repository.ViewLocalizationRepository.CreatePrompt` | source/Griffin.MvcContrib/Localization/Views/ViewLocalizer.cs:91 | the new contents are `AddPrompt` of the old with the given translation; the key invariant is kept |
| `Prompts.SeedLanguage` | source/Griffin.MvcContrib/Localization/Views/ViewLocalizer.cs:76 | fails with `LanguageMissing(template)` exactly when the template is absent; otherwise adds the culture with the template's prompts, translations blanked, leaving other cultures unchanged and keeping the key invariant |
| `Prompts.AddPrompt` | source/Griffin.MvcContrib/Localization/Views/ViewLocalizer.cs:91 | the prompt is found under its key with the given translation; every other key of the culture and every other culture is unchanged; an existing culture gains exactly that key; the key invariant is kept |
| `Prompts.ClearTranslations` | source/Griffin.MvcContrib.RavenDb/Localization/ViewLocalizationDocument.cs:30 | same keys; every prompt keeps its key, controller, action and text and has an empty translation |
| `RavenDbLocalization.Clone` | source/Griffin.MvcContrib.RavenDb/Localization/ViewLocalizationDocument.cs:21-39 | the id is the new culture's name; as many prompts as the source; the i-th carries the i-th source prompt's identity, the new LCID, an empty text, and the given time and principal |
| `RavenDbLocalization.CloneKeepsIdentities` | source/Griffin.MvcContrib.RavenDb/Localization/ViewLocalizationDocument.cs:23-31 | the clone's prompt identities are the source's, in order; an empty source gives an empty clone |
| `RavenDbLocalization.CloneDependsOnlyOnIdentities` | source/Griffin.MvcContrib.RavenDb/Localization/ViewLocalizationDocument.cs:23-37 | two sources with the same prompt identities give the same clone: their translations, stamps and ids are discarded |
| `RavenDbLocalization.CloneOfClone` | source/Griffin.MvcContrib.RavenDb/Localization/ViewLocalizationDocument.cs:23-37 | cloning a clone equals cloning the original |
| `RavenDbLocalization.CloneClearsTranslations` | source/Griffin.MvcContrib.RavenDb/Localization/ViewLocalizationDocument.cs:23-31 | read by key, the clone equals the source with every translation blanked, which is the repository's contract for creating a language |

## Left out

- The static `Current` localizer and the lazy `Repository` lookup through `DependencyResolver` with its fallback to the file repository (`ViewLocalizer.cs:29-33, 47-55`): this is service-locator plumbing. The repository and the key derivation are given to the constructor instead.
- `CultureInfo.CurrentUICulture` is ambient per request in the source. Here it is a parameter of `Translate`.
- `CultureInfo` internals: a culture is its LCID and name. Equality compares both, and the fallback prints the name, which is what `CultureInfo.ToString()` returns.
- The concrete file and document-database repositories, their persistence, and their I/O failures. These failures would propagate unchanged through `Translate`.
- Two concurrent calls that both miss the same key and both register it. This is a concurrency race, and the model serves one call at a time.
- The format of `TextPrompt.CreateKey`: the key derivation is an arbitrary function.
- A null `TranslatedText` on a found prompt: it takes the same branch as an empty one in the source (`string.IsNullOrEmpty`), and the model has no null translation.
- Clone: a single timestamp stamps every prompt. The source evaluates `DateTime.Now` once per prompt, so its stamps may differ by the clock ticks elapsed while copying. The current principal is likewise a parameter.
- Clone: a null `Prompts` list, on which the source's query throws `ArgumentNullException`, is not modelled; a document always has a list.
- `Repository.ViewLocalizationRepository.CreatePrompt` for a culture the repository lacks creates that culture. `Translate` never does this, because it seeds the culture first.
- `source/Samples/MvcContrib.Admin/AdminTest/Modules/LocalizationModule.cs` is container registration only.
