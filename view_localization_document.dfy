/** The document-database form of one language's view prompts, and how a new language's
    document is made from an existing one. */
module RavenDbLocalization {
  import opened Cultures
  import opened Prompts

  /** A clock reading (`DateTime`), taken as an opaque instant. */
  type DateTime = int

  /** What identifies a prompt: its key and the view text it was registered for. The `ViewPrompt`
      copy constructor is taken to copy these fields unchanged; its code is not part of this model. */
  datatype PromptIdentity = PromptIdentity(textKey: string, controllerName: string, actionName: string, textName: string)

  /** A prompt as stored in the document database: its identity, the locale id of its language,
      its translated text and who last changed it, when. */
  datatype ViewPrompt = ViewPrompt(
    identity: PromptIdentity,
    localeId: int,
    text: string,
    updatedAt: DateTime,
    updatedBy: string)

  /** The prompts of one language; `id` is the language's name (`en-US`). */
  datatype ViewLocalizationDocument = ViewLocalizationDocument(id: string, prompts: seq<ViewPrompt>)

  /** The copy of `p` made for `newCulture`: same identity, no translation, stamped with the
      given time and principal. */
  function StampedCopy(p: ViewPrompt, newCulture: Culture, now: DateTime, principalName: string): ViewPrompt
  {
    p.(localeId := newCulture.lcid, updatedAt := now, updatedBy := principalName, text := "")
  }

  /** The document for `newCulture` made from `doc`: one new prompt per prompt of `doc`, in the
      same order, with the same identity, the locale id of `newCulture`, an empty translation,
      and `now` and `principalName` as the time and author of the change. The clock and the
      current principal, which the original reads itself, are passed in. */
  function Clone(doc: ViewLocalizationDocument, newCulture: Culture, now: DateTime, principalName: string): (r: ViewLocalizationDocument)
    ensures r.id == newCulture.name
    ensures |r.prompts| == |doc.prompts|
    ensures forall i :: 0 <= i < |r.prompts| ==>
      && r.prompts[i].identity == doc.prompts[i].identity
      && r.prompts[i].localeId == newCulture.lcid
      && r.prompts[i].text == ""
      && r.prompts[i].updatedAt == now
      && r.prompts[i].updatedBy == principalName
  {
    ViewLocalizationDocument(
      newCulture.name,
      seq(|doc.prompts|, i requires 0 <= i < |doc.prompts| => StampedCopy(doc.prompts[i], newCulture, now, principalName)))
  }

  /** The identities of a list of prompts, in order. */
  function Identities(prompts: seq<ViewPrompt>): (r: seq<PromptIdentity>)
    ensures |r| == |prompts|
    ensures forall i :: 0 <= i < |prompts| ==> r[i] == prompts[i].identity
  {
    seq(|prompts|, i requires 0 <= i < |prompts| => prompts[i].identity)
  }

  /** A clone has exactly the prompts of its source, in the same order; an empty source gives
      an empty clone. */
  lemma CloneKeepsIdentities(doc: ViewLocalizationDocument, newCulture: Culture, now: DateTime, principalName: string)
    ensures Identities(Clone(doc, newCulture, now, principalName).prompts) == Identities(doc.prompts)
    ensures doc.prompts == [] ==> Clone(doc, newCulture, now, principalName).prompts == []
  {
  }

  /** What a clone holds depends on the source only through the identities of its prompts:
      the source's translations, locale ids, stamps and own id are all discarded. */
  lemma CloneDependsOnlyOnIdentities(doc1: ViewLocalizationDocument, doc2: ViewLocalizationDocument,
                                     newCulture: Culture, now: DateTime, principalName: string)
    requires Identities(doc1.prompts) == Identities(doc2.prompts)
    ensures Clone(doc1, newCulture, now, principalName) == Clone(doc2, newCulture, now, principalName)
  {
  }

  /** Cloning a clone is the same as cloning the original directly. */
  lemma CloneOfClone(doc: ViewLocalizationDocument, culture1: Culture, now1: DateTime, principal1: string,
                     culture2: Culture, now2: DateTime, principal2: string)
    ensures Clone(Clone(doc, culture1, now1, principal1), culture2, now2, principal2) == Clone(doc, culture2, now2, principal2)
  {
  }

  /** A stored prompt seen as a repository prompt; its `text` is the translation. */
  function AsTextPrompt(p: ViewPrompt): TextPrompt
  {
    TextPrompt(p.identity.textKey, p.identity.controllerName, p.identity.actionName, p.identity.textName, p.text)
  }

  /** A document's prompts by key, as the repository hands them out; when two prompts share
      a key the first one is the one found. */
  function AsPromptSet(prompts: seq<ViewPrompt>): (r: PromptSet)
    ensures forall i :: 0 <= i < |prompts| ==> prompts[i].identity.textKey in r
    ensures forall k :: k in r ==> r[k].textKey == k
  {
    if prompts == [] then map[]
    else AsPromptSet(prompts[1..])[prompts[0].identity.textKey := AsTextPrompt(prompts[0])]
  }

  /** Seen through the repository, a clone is its source with every translation blanked:
      the document database's cloning meets the contract of creating a language. */
  lemma {:induction false} CloneClearsTranslations(doc: ViewLocalizationDocument, newCulture: Culture, now: DateTime, principalName: string)
    ensures AsPromptSet(Clone(doc, newCulture, now, principalName).prompts) == ClearTranslations(AsPromptSet(doc.prompts))
    decreases |doc.prompts|
  {
    if doc.prompts != [] {
      var tail := ViewLocalizationDocument(doc.id, doc.prompts[1..]);
      var cloned := Clone(doc, newCulture, now, principalName).prompts;
      assert cloned[1..] == Clone(tail, newCulture, now, principalName).prompts;
      CloneClearsTranslations(tail, newCulture, now, principalName);
      var p := doc.prompts[0];
      var rest := AsPromptSet(tail.prompts);
      assert AsTextPrompt(cloned[0]) == AsTextPrompt(p).(translatedText := "");
      assert ClearTranslations(rest[p.identity.textKey := AsTextPrompt(p)]) ==
             ClearTranslations(rest)[p.identity.textKey := AsTextPrompt(p).(translatedText := "")];
    }
  }
}
