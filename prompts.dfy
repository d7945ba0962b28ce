/** The values a view-localization repository stores: one set of text prompts per culture,
    and the changes the localizer asks the repository to make to them. */
module Prompts {
  import opened Wrappers
  import opened Cultures

  /** A translatable text of a view: where it comes from (controller, action, source text),
      the key derived from those, and the translation a translator has entered so far. */
  datatype TextPrompt = TextPrompt(
    textKey: string,
    controllerName: string,
    actionName: string,
    textName: string,
    translatedText: string)

  /** The prompts of one culture, by key. */
  type PromptSet = map<string, TextPrompt>

  /** Everything a repository holds: the prompt set of every culture it knows. */
  type Store = map<Culture, PromptSet>

  /** The errors the localizer raises or lets through from the repository. */
  datatype LocalizationError =
    | ArgumentNull(paramName: string)   // a required argument was null or empty
    | LanguageMissing(culture: Culture) // a language was to be seeded from one the repository lacks

  /** Every prompt is filed under its own key. */
  ghost predicate KeysConsistent(store: Store)
  {
    forall c, k :: c in store && k in store[c] ==> store[c][k].textKey == k
  }

  /** The prompt stored under `key` for `culture`, or null. */
  function Lookup(store: Store, culture: Culture, key: string): Option<TextPrompt>
  {
    if culture in store && key in store[culture] then Some(store[culture][key]) else None
  }

  /** A copy of a prompt set with every translation blanked. */
  function ClearTranslations(prompts: PromptSet): (r: PromptSet)
    ensures r.Keys == prompts.Keys
    ensures forall k :: k in r ==>
      r[k].translatedText == "" &&
      r[k].textKey == prompts[k].textKey &&
      r[k].controllerName == prompts[k].controllerName &&
      r[k].actionName == prompts[k].actionName &&
      r[k].textName == prompts[k].textName
  {
    map k | k in prompts :: prompts[k].(translatedText := "")
  }

  /** Creating a language: the prompts of `template` are copied to `culture` with their
      translations blanked; the repository fails when it has no prompts for `template`. */
  function SeedLanguage(store: Store, culture: Culture, template: Culture): (r: Result<Store, LocalizationError>)
    ensures r.Failure? <==> template !in store
    ensures r.Failure? ==> r.error == LanguageMissing(template)
    ensures r.Success? ==>
      r.value.Keys == store.Keys + {culture} &&
      r.value[culture] == ClearTranslations(store[template]) &&
      forall c :: c in store && c != culture ==> r.value[c] == store[c]
    ensures r.Success? && KeysConsistent(store) ==> KeysConsistent(r.value)
  {
    if template !in store then Failure(LanguageMissing(template))
    else Success(store[culture := ClearTranslations(store[template])])
  }

  /** Registering a prompt: it is filed under its key for `culture` with `translatedText`
      as its translation; nothing else in the store changes. */
  function AddPrompt(store: Store, culture: Culture, prompt: TextPrompt, translatedText: string): (r: Store)
    ensures r.Keys == store.Keys + {culture}
    ensures Lookup(r, culture, prompt.textKey) == Some(prompt.(translatedText := translatedText))
    ensures forall k :: k != prompt.textKey ==> Lookup(r, culture, k) == Lookup(store, culture, k)
    ensures forall c :: c in store && c != culture ==> r[c] == store[c]
    ensures culture in store ==> r[culture].Keys == store[culture].Keys + {prompt.textKey}
    ensures KeysConsistent(store) ==> KeysConsistent(r)
  {
    var prompts := if culture in store then store[culture] else map[];
    store[culture := prompts[prompt.textKey := prompt.(translatedText := translatedText)]]
  }

  /** A translator entering `text` as the translation of an existing prompt (the editing
      workflow, which lies outside the localizer; used to state what the localizer returns
      once a translation exists). */
  function SetTranslation(store: Store, culture: Culture, key: string, text: string): Store
  {
    if culture in store && key in store[culture]
    then store[culture := store[culture][key := store[culture][key].(translatedText := text)]]
    else store
  }
}
