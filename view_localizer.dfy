/** The view localizer: turns a (controller, action, text) triple into the text to show in the
    current UI culture, registering missing languages and prompts on the way. */
module ViewLocalization {
  import opened Wrappers
  import opened Cultures
  import opened Prompts
  import opened Repository

  /** The key derivation of `TextPrompt.CreateKey`, a deterministic function of controller
      name, action name and text whose format is not part of this model. */
  type KeyFunction = (string, string, string) -> string

  /** The action assumed when a view passes none. */
  const DefaultActionName: string := "Index"

  /** `string.IsNullOrEmpty`. */
  predicate IsNullOrEmpty(s: Option<string>)
    ensures IsNullOrEmpty(s) <==> s == None || s == Some("")
  {
    s.None? || s.value == ""
  }

  /** The action name actually used: a null action becomes `Index`; an empty one is kept. */
  function ResolveAction(actionName: Option<string>): (r: string)
    ensures actionName.Some? ==> r == actionName.value
    ensures r == DefaultActionName <==> actionName == None || actionName == Some(DefaultActionName)
  {
    if actionName.None? then DefaultActionName else actionName.value
  }

  /** The prompt registered for a text seen for the first time: no translation yet. */
  function TemplatePrompt(key: string, controllerName: string, actionName: string, text: string): (r: TextPrompt)
    ensures r.textKey == key && r.translatedText == ""
    ensures r.controllerName == controllerName && r.actionName == actionName && r.textName == text
  {
    TextPrompt(key, controllerName, actionName, text, "")
  }

  /** The marked-up fallback `{culture}:[{text}]` shown for an untranslated text. */
  function Decorate(culture: Culture, text: string): (r: string)
    ensures |r| == |culture.name| + |text| + 3
    ensures r[..|culture.name|] == culture.name
    ensures r[|culture.name|..|culture.name| + 2] == ":[" && r[|r| - 1] == ']'
    ensures r[|culture.name| + 2..|r| - 1] == text
    ensures r != text
  {
    culture.name + ":[" + text + "]"
  }

  /** The text to show once the prompt has been looked up: its translation when it has one,
      otherwise the text itself in the default culture and the marked-up text in any other. */
  function DisplayText(found: Option<TextPrompt>, current: Culture, defaultCulture: Culture, text: string): (r: string)
    ensures found.Some? && found.value.translatedText != "" ==> r == found.value.translatedText
    ensures (found.None? || found.value.translatedText == "") ==>
      r == (if current == defaultCulture then text else Decorate(current, text))
    ensures text != "" ==> r != ""
  {
    var translated := if found.Some? then found.value.translatedText else "";
    if translated != "" then translated
    else if current == defaultCulture then text
    else Decorate(current, text)
  }

  /** What one call of `Translate` returns, and what the repository holds afterwards. */
  datatype Translation = Translation(result: Result<string, LocalizationError>, store: Store)

  /** The whole effect of `Translate` on a repository holding `store`, with `current` as the
      current UI culture. */
  function TranslateSpec(store: Store, defaultCulture: Culture, createKey: KeyFunction, current: Culture,
                         controllerName: Option<string>, actionName: Option<string>, text: Option<string>): (t: Translation)
    ensures IsNullOrEmpty(controllerName) ==> t == Translation(Failure(ArgumentNull("controllerName")), store)
    ensures !IsNullOrEmpty(controllerName) && IsNullOrEmpty(text) ==> t == Translation(Failure(ArgumentNull("text")), store)
    ensures t.result.Failure? ==> t.store == store
    ensures t.result.Success? ==> t.result.value != "" && current in t.store
    ensures store.Keys <= t.store.Keys
    ensures forall c, k :: c in store && k in store[c] ==> k in t.store[c] && t.store[c][k] == store[c][k]
    ensures KeysConsistent(store) ==> KeysConsistent(t.store)
  {
    if IsNullOrEmpty(controllerName) then Translation(Failure(ArgumentNull("controllerName")), store)
    else if IsNullOrEmpty(text) then Translation(Failure(ArgumentNull("text")), store)
    else
      var action := ResolveAction(actionName);
      var seeded := if current in store then Success(store) else SeedLanguage(store, current, English);
      if seeded.Failure? then Translation(Failure(seeded.error), store)
      else
        var key := createKey(controllerName.value, action, text.value);
        var found := Lookup(seeded.value, current, key);
        var after := if found.None?
                     then AddPrompt(seeded.value, current, TemplatePrompt(key, controllerName.value, action, text.value), "")
                     else seeded.value;
        Translation(Success(DisplayText(found, current, defaultCulture, text.value)), after)
  }

  /** The key `Translate` files the prompt for (controller, action, text) under. */
  function KeyOf(createKey: KeyFunction, controllerName: Option<string>, actionName: Option<string>, text: Option<string>): string
    requires !IsNullOrEmpty(controllerName) && !IsNullOrEmpty(text)
  {
    createKey(controllerName.value, ResolveAction(actionName), text.value)
  }

  /** A missing language is seeded from US English (LCID 1033), whatever the default culture is:
      without English the call fails and changes nothing; with it, the new language holds
      every English prompt untranslated, plus the prompt asked for. */
  lemma TranslateSeedsFromEnglish(store: Store, defaultCulture: Culture, createKey: KeyFunction, current: Culture,
                                  controllerName: Option<string>, actionName: Option<string>, text: Option<string>)
    requires !IsNullOrEmpty(controllerName) && !IsNullOrEmpty(text)
    requires current !in store
    ensures var t := TranslateSpec(store, defaultCulture, createKey, current, controllerName, actionName, text);
      && (English !in store ==> t == Translation(Failure(LanguageMissing(English)), store))
      && (English in store ==>
            && t.result.Success?
            && t.result == Success(if current == defaultCulture then text.value else Decorate(current, text.value))
            && t.store.Keys == store.Keys + {current}
            && (forall c :: c in store ==> t.store[c] == store[c])
            && t.store[current].Keys == store[English].Keys + {KeyOf(createKey, controllerName, actionName, text)}
            && (forall k :: k in store[English] ==> t.store[current][k] == store[English][k].(translatedText := ""))
            && (KeyOf(createKey, controllerName, actionName, text) !in store[English] ==>
                  t.store[current][KeyOf(createKey, controllerName, actionName, text)] ==
                    TextPrompt(KeyOf(createKey, controllerName, actionName, text), controllerName.value,
                               ResolveAction(actionName), text.value, ""))
            && (forall k :: k in t.store[current] ==> t.store[current][k].translatedText == ""))
  {
  }

  /** A null action name is the same as `Index`; an empty one is used as it is, both in the
      key and in the registered prompt. */
  lemma TranslateDefaultsNullAction(store: Store, defaultCulture: Culture, createKey: KeyFunction, current: Culture,
                                    controllerName: Option<string>, text: Option<string>)
    ensures TranslateSpec(store, defaultCulture, createKey, current, controllerName, None, text) ==
            TranslateSpec(store, defaultCulture, createKey, current, controllerName, Some(DefaultActionName), text)
    ensures !IsNullOrEmpty(controllerName) && !IsNullOrEmpty(text) ==>
      && KeyOf(createKey, controllerName, Some(""), text) == createKey(controllerName.value, "", text.value)
      && (current in store && KeyOf(createKey, controllerName, Some(""), text) !in store[current] ==>
            TranslateSpec(store, defaultCulture, createKey, current, controllerName, Some(""), text)
              .store[current][KeyOf(createKey, controllerName, Some(""), text)].actionName == "")
  {
  }

  /** The repository effects of `Translate` do not depend on the default culture. */
  lemma TranslateEffectIgnoresDefaultCulture(store: Store, default1: Culture, default2: Culture, createKey: KeyFunction,
                                             current: Culture, controllerName: Option<string>, actionName: Option<string>, text: Option<string>)
    ensures TranslateSpec(store, default1, createKey, current, controllerName, actionName, text).store ==
            TranslateSpec(store, default2, createKey, current, controllerName, actionName, text).store
  {
  }

  /** In a language the repository already has: a prompt seen for the first time is
      registered, exactly once, with the resolved action and an empty translation; a known
      prompt leaves the repository as it was. */
  lemma TranslateRegistersMissingPrompt(store: Store, defaultCulture: Culture, createKey: KeyFunction, current: Culture,
                                        controllerName: Option<string>, actionName: Option<string>, text: Option<string>)
    requires !IsNullOrEmpty(controllerName) && !IsNullOrEmpty(text)
    requires current in store
    ensures var t := TranslateSpec(store, defaultCulture, createKey, current, controllerName, actionName, text);
      var key := KeyOf(createKey, controllerName, actionName, text);
      && t.result.Success?
      && (key in store[current] ==> t.store == store)
      && (key !in store[current] ==>
            && t.store.Keys == store.Keys
            && t.store[current].Keys == store[current].Keys + {key}
            && |t.store[current]| == |store[current]| + 1
            && t.store[current][key] == TextPrompt(key, controllerName.value, ResolveAction(actionName), text.value, "")
            && (forall c :: c in store && c != current ==> t.store[c] == store[c]))
  {
  }

  /** What `Translate` returns in a language the repository already has: the stored
      translation when there is one, otherwise the text itself in the default culture and
      the marked-up text elsewhere. */
  lemma TranslateResult(store: Store, defaultCulture: Culture, createKey: KeyFunction, current: Culture,
                        controllerName: Option<string>, actionName: Option<string>, text: Option<string>)
    requires !IsNullOrEmpty(controllerName) && !IsNullOrEmpty(text)
    requires current in store
    ensures var t := TranslateSpec(store, defaultCulture, createKey, current, controllerName, actionName, text);
      var found := Lookup(store, current, KeyOf(createKey, controllerName, actionName, text));
      && (found.Some? && found.value.translatedText != "" ==> t.result == Success(found.value.translatedText))
      && (found.None? || found.value.translatedText == "" ==>
            t.result == Success(if current == defaultCulture then text.value else Decorate(current, text.value)))
  {
  }

  /** Translating the same text twice in a row gives the same answer, and the second call
      leaves the repository as the first left it. */
  lemma TranslateIdempotent(store: Store, defaultCulture: Culture, createKey: KeyFunction, current: Culture,
                            controllerName: Option<string>, actionName: Option<string>, text: Option<string>)
    ensures var t := TranslateSpec(store, defaultCulture, createKey, current, controllerName, actionName, text);
      TranslateSpec(t.store, defaultCulture, createKey, current, controllerName, actionName, text) == t
  {
  }

  /** Once a translator has entered a translation for the prompt a call registered, the same
      call returns that translation. */
  lemma TranslationRoundTrip(store: Store, defaultCulture: Culture, createKey: KeyFunction, current: Culture,
                             controllerName: Option<string>, actionName: Option<string>, text: Option<string>,
                             translation: string)
    requires translation != ""
    requires TranslateSpec(store, defaultCulture, createKey, current, controllerName, actionName, text).result.Success?
    ensures var t := TranslateSpec(store, defaultCulture, createKey, current, controllerName, actionName, text);
      var edited := SetTranslation(t.store, current, KeyOf(createKey, controllerName, actionName, text), translation);
      TranslateSpec(edited, defaultCulture, createKey, current, controllerName, actionName, text) ==
        Translation(Success(translation), edited)
  {
  }

  /** One call of `Translate`: the current UI culture and the arguments. */
  datatype Request = Request(culture: Culture, controllerName: Option<string>, actionName: Option<string>, text: Option<string>)

  /** The answers to a series of `Translate` calls made one after the other, and what the
      repository holds at the end. */
  datatype Session = Session(results: seq<Result<string, LocalizationError>>, store: Store)

  /** Serves `requests` in order against a repository holding `store`. */
  function TranslateAll(store: Store, defaultCulture: Culture, createKey: KeyFunction, requests: seq<Request>): (s: Session)
    ensures |s.results| == |requests|
    decreases |requests|
  {
    if requests == [] then Session([], store)
    else
      var q := requests[0];
      var t := TranslateSpec(store, defaultCulture, createKey, q.culture, q.controllerName, q.actionName, q.text);
      var rest := TranslateAll(t.store, defaultCulture, createKey, requests[1..]);
      Session([t.result] + rest.results, rest.store)
  }

  /** The localizer never deletes or alters a prompt: whatever the repository held before a
      series of calls it still holds, unchanged, afterwards. */
  lemma {:induction false} TranslateAllKeepsPrompts(store: Store, defaultCulture: Culture, createKey: KeyFunction, requests: seq<Request>)
    ensures var s := TranslateAll(store, defaultCulture, createKey, requests);
      && store.Keys <= s.store.Keys
      && forall c, k :: c in store && k in store[c] ==> k in s.store[c] && s.store[c][k] == store[c][k]
    decreases |requests|
  {
    if requests != [] {
      var q := requests[0];
      var t := TranslateSpec(store, defaultCulture, createKey, q.culture, q.controllerName, q.actionName, q.text);
      TranslateAllKeepsPrompts(t.store, defaultCulture, createKey, requests[1..]);
    }
  }

  /** Every text shown during a series of calls ends up registered for translation: after the
      series, the repository has a prompt for it in the culture it was shown in. */
  lemma {:induction false} TranslateAllRegistersShownTexts(store: Store, defaultCulture: Culture, createKey: KeyFunction, requests: seq<Request>)
    ensures var s := TranslateAll(store, defaultCulture, createKey, requests);
      forall i :: 0 <= i < |requests| && s.results[i].Success? ==>
        && !IsNullOrEmpty(requests[i].controllerName) && !IsNullOrEmpty(requests[i].text)
        && requests[i].culture in s.store
        && KeyOf(createKey, requests[i].controllerName, requests[i].actionName, requests[i].text) in s.store[requests[i].culture]
    decreases |requests|
  {
    if requests != [] {
      var q := requests[0];
      var t := TranslateSpec(store, defaultCulture, createKey, q.culture, q.controllerName, q.actionName, q.text);
      TranslateAllRegistersShownTexts(t.store, defaultCulture, createKey, requests[1..]);
      TranslateAllKeepsPrompts(t.store, defaultCulture, createKey, requests[1..]);
      if t.result.Success? {
        TranslateRegistersKey(store, defaultCulture, createKey, q.culture, q.controllerName, q.actionName, q.text);
      }
    }
  }

  /** After a successful call the prompt asked for is registered. */
  lemma TranslateRegistersKey(store: Store, defaultCulture: Culture, createKey: KeyFunction, current: Culture,
                              controllerName: Option<string>, actionName: Option<string>, text: Option<string>)
    requires TranslateSpec(store, defaultCulture, createKey, current, controllerName, actionName, text).result.Success?
    ensures !IsNullOrEmpty(controllerName) && !IsNullOrEmpty(text)
    ensures var t := TranslateSpec(store, defaultCulture, createKey, current, controllerName, actionName, text);
      current in t.store && KeyOf(createKey, controllerName, actionName, text) in t.store[current]
  {
  }

  /** The localizer used by views. */
  class ViewLocalizer {
    /** The culture whose texts are shown untranslated and unmarked. */
    var defaultCulture: Culture
    const repository: ViewLocalizationRepository
    const createKey: KeyFunction

    /** A new localizer has US English (LCID 1033) as its default culture. */
    constructor (repository: ViewLocalizationRepository, createKey: KeyFunction)
      ensures defaultCulture == English && defaultCulture.lcid == 1033
      ensures this.repository == repository && this.createKey == createKey
    {
      defaultCulture := English;
      this.repository := repository;
      this.createKey := createKey;
    }

    /** Translates `text` of the view of `controllerName`/`actionName` into `currentUICulture`. */
    method Translate(currentUICulture: Culture, controllerName: Option<string>, actionName: Option<string>, text: Option<string>)
      returns (r: Result<string, LocalizationError>)
      requires repository.Valid()
      modifies repository
      ensures repository.Valid()
      ensures Translation(r, repository.documents) ==
        TranslateSpec(old(repository.documents), defaultCulture, createKey, currentUICulture, controllerName, actionName, text)
    {
      if IsNullOrEmpty(controllerName) {
        return Failure(ArgumentNull("controllerName"));
      }
      if IsNullOrEmpty(text) {
        return Failure(ArgumentNull("text"));
      }
      var action := if actionName.None? then DefaultActionName else actionName.value;

      var known := repository.Exists(currentUICulture);
      if !known {
        var created := repository.CreateForLanguage(currentUICulture, English);
        if created.Failure? {
          return Failure(created.error);
        }
      }

      var textToSay := "";
      var id := createKey(controllerName.value, action, text.value);
      var prompt := repository.GetPrompt(currentUICulture, id);
      if prompt.None? {
        var templatePrompt := TemplatePrompt(id, controllerName.value, action, text.value);
        repository.CreatePrompt(currentUICulture, templatePrompt, "");
      } else {
        textToSay := prompt.value.translatedText;
      }

      if textToSay == "" {
        textToSay := if currentUICulture == defaultCulture then text.value else Decorate(currentUICulture, text.value);
      }
      return Success(textToSay);
    }
  }
}
