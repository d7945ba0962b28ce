/** The repository the localizer reads prompts from and registers new ones in. */
module Repository {
  import opened Wrappers
  import opened Cultures
  import opened Prompts

  /** A repository of view prompts, held as the prompt set of every culture it knows. */
  class ViewLocalizationRepository {
    var documents: Store

    /** Every prompt is filed under its own key. */
    ghost predicate Valid()
      reads this
    {
      KeysConsistent(documents)
    }

    /** A repository holding `initial`, for example what was persisted earlier. */
    constructor (initial: Store)
      requires KeysConsistent(initial)
      ensures Valid() && documents == initial
    {
      documents := initial;
    }

    /** Whether the repository has prompts for `culture`. */
    method Exists(culture: Culture) returns (b: bool)
      ensures b <==> culture in documents
    {
      b := culture in documents;
    }

    /** Creates the language `culture` from the prompts of `templateCulture`, translations
        blanked; fails, changing nothing, when `templateCulture` is unknown. */
    method CreateForLanguage(culture: Culture, templateCulture: Culture) returns (r: Result<(), LocalizationError>)
      requires Valid()
      modifies this
      ensures Valid()
      ensures r.Failure? <==> templateCulture !in old(documents)
      ensures r.Failure? ==> r.error == LanguageMissing(templateCulture) && documents == old(documents)
      ensures r.Success? ==> Success(documents) == SeedLanguage(old(documents), culture, templateCulture)
    {
      var seeded := SeedLanguage(documents, culture, templateCulture);
      if seeded.Failure? {
        return Failure(seeded.error);
      }
      documents := seeded.value;
      return Success(());
    }

    /** The prompt filed under `key` for `culture`, or null when there is none. */
    method GetPrompt(culture: Culture, key: string) returns (p: Option<TextPrompt>)
      requires Valid()
      ensures p.Some? <==> culture in documents && key in documents[culture]
      ensures p.Some? ==> p.value == documents[culture][key] && p.value.textKey == key
    {
      p := Lookup(documents, culture, key);
    }

    /** Registers `prompt` for `culture` with `translatedText` as its translation. */
    method CreatePrompt(culture: Culture, prompt: TextPrompt, translatedText: string)
      requires Valid()
      modifies this
      ensures Valid()
      ensures documents == AddPrompt(old(documents), culture, prompt, translatedText)
    {
      documents := AddPrompt(documents, culture, prompt, translatedText);
    }
  }
}
