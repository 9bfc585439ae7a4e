/** The French/English toggle: translation tables, the text swap, and the persisted choice. */
module Language {
  import opened Wrappers
  import opened Browser

  /** The storage key under which the language is persisted. */
  const LangKey := "lang"

  const French: map<string, string> := map[
    "nav.home" := "Accueil",
    "nav.about" := "À propos",
    "nav.services" := "Services",
    "nav.projects" := "Projets",
    "nav.contact" := "Contact",
    "hero.greeting" := "Bonjour, je suis",
    "hero.role" := "Freelance en Réseaux, Cybersécurité (Pentest)",
    "hero.role2" := "et Développement Web & Mobile",
    "about.title" := "À propos",
    "about.text1" := "Ingénieur IT freelance passionné par la sécurité des systèmes et le développement d'applications robustes. Je combine expertise technique et approche pragmatique pour livrer des solutions sur mesure.",
    "about.text2" := "Spécialisé dans la sécurisation des infrastructures réseau, les tests de pénétration, et le développement d'applications web et mobiles performantes.",
    "services.title" := "Services",
    "services.network.title" := "Réseaux",
    "services.network.description" := "Conception, configuration et optimisation d'infrastructures réseau sécurisées et performantes.",
    "services.security.title" := "Cybersécurité / Pentest",
    "services.security.description" := "Tests de pénétration, audits de sécurité et renforcement des défenses de vos systèmes.",
    "services.web.title" := "Développement Web",
    "services.web.description" := "Applications web modernes, performantes et sécurisées, du frontend au backend.",
    "services.mobile.title" := "Développement Mobile",
    "services.mobile.description" := "Applications mobiles natives et cross-platform avec focus sur la sécurité et l'expérience utilisateur.",
    "projects.title" := "Projets",
    "projects.item1.title" := "Infrastructure Sécurisée",
    "projects.item1.description" := "Mise en place d'une architecture réseau complète avec segmentation, monitoring et protection avancée.",
    "projects.item2.title" := "Audit de Sécurité",
    "projects.item2.description" := "Test de pénétration complet d'une application web avec rapport détaillé et recommandations.",
    "projects.item3.title" := "Application Web",
    "projects.item3.description" := "Plateforme web sécurisée avec authentification robuste et architecture scalable.",
    "projects.item4.title" := "Application Mobile",
    "projects.item4.description" := "Application mobile cross-platform avec chiffrement des données et API sécurisée.",
    "contact.title" := "Contact",
    "contact.text" := "Intéressé par une collaboration ? Discutons de votre projet."
  ]

  const English: map<string, string> := map[
    "nav.home" := "Home",
    "nav.about" := "About",
    "nav.services" := "Services",
    "nav.projects" := "Projects",
    "nav.contact" := "Contact",
    "hero.greeting" := "Hello, I am",
    "hero.role" := "Freelance IT Engineer in Networks, Cybersecurity (Pentest)",
    "hero.role2" := "and Web & Mobile Development",
    "about.title" := "About",
    "about.text1" := "Freelance IT engineer passionate about system security and robust application development. I combine technical expertise and a pragmatic approach to deliver tailored solutions.",
    "about.text2" := "Specialized in securing network infrastructures, penetration testing, and developing high-performance web and mobile applications.",
    "services.title" := "Services",
    "services.network.title" := "Networks",
    "services.network.description" := "Design, configuration and optimization of secure and high-performance network infrastructures.",
    "services.security.title" := "Cybersecurity / Pentest",
    "services.security.description" := "Penetration testing, security audits and strengthening of your systems' defenses.",
    "services.web.title" := "Web Development",
    "services.web.description" := "Modern, high-performance and secure web applications, from frontend to backend.",
    "services.mobile.title" := "Mobile Development",
    "services.mobile.description" := "Native and cross-platform mobile applications with focus on security and user experience.",
    "projects.title" := "Projects",
    "projects.item1.title" := "Secure Infrastructure",
    "projects.item1.description" := "Implementation of a complete network architecture with segmentation, monitoring and advanced protection.",
    "projects.item2.title" := "Security Audit",
    "projects.item2.description" := "Complete penetration test of a web application with detailed report and recommendations.",
    "projects.item3.title" := "Web Application",
    "projects.item3.description" := "Secure web platform with robust authentication and scalable architecture.",
    "projects.item4.title" := "Mobile Application",
    "projects.item4.description" := "Cross-platform mobile application with data encryption and secure API.",
    "contact.title" := "Contact",
    "contact.text" := "Interested in a collaboration? Let's discuss your project."
  ]

  /** The table the toggle consults for a language: "fr" and "en" have theirs, any other language has no entries. */
  function TableFor(lang: string): (table: map<string, string>)
    ensures table == map[] <==> lang != "fr" && lang != "en"
    ensures table != map[] ==> table.Keys == French.Keys && "" !in table.Values
  {
    TablesSameKeys();
    TablesNonEmpty();
    assert "nav.home" in English;
    if lang == "fr" then French else if lang == "en" then English else map[]
  }

  /** True when the table gives a key a non-empty (truthy) text. */
  predicate HasText(table: map<string, string>, key: string) {
    key in table && table[key] != ""
  }

  /** One element after the swap: its text is replaced only when the table has text for its key. */
  function Relabel(table: map<string, string>, e: TaggedElement): (r: TaggedElement)
    ensures r.key == e.key
    ensures r == e || (HasText(table, e.key) && r.text == table[e.key])
  {
    if HasText(table, e.key) then e.(text := table[e.key]) else e
  }

  /** All tagged elements after the swap, in document order. */
  function Relabeled(table: map<string, string>, elements: seq<TaggedElement>): (r: seq<TaggedElement>)
    ensures |r| == |elements|
    ensures forall i :: 0 <= i < |elements| ==> r[i].key == elements[i].key
  {
    seq(|elements|, i requires 0 <= i < |elements| => Relabel(table, elements[i]))
  }

  /** The language chosen on page load from the stored preference (default "fr"). */
  function LoadLang(stored: Option<string>): (lang: string)
    ensures lang != ""
    ensures stored.None? || stored.value == "" ==> lang == "fr"
    ensures stored.Some? && stored.value != "" ==> lang == stored.value
  {
    OrElse(stored, "fr")
  }

  /** The language after one click: "fr" goes to "en", anything else to "fr". */
  function ToggledLang(lang: string): (r: string)
    ensures r == "fr" || r == "en"
    ensures r == "en" <==> lang == "fr"
  {
    if lang == "fr" then "en" else "fr"
  }

  /** For the two known languages, two clicks come back to the start; an unknown stored language is left after the first click. */
  lemma ToggledLangTwice(lang: string)
    ensures lang == "fr" || lang == "en" ==> ToggledLang(ToggledLang(lang)) == lang
    ensures lang != "fr" && lang != "en" ==> ToggledLang(ToggledLang(lang)) == "en"
  {
  }

  /** Both tables cover the same keys. */
  lemma TablesSameKeys()
    ensures French.Keys == English.Keys
  {
  }

  /** Neither table has an empty text. */
  lemma TablesNonEmpty()
    ensures "" !in French.Values && "" !in English.Values
  {
    FrenchNonEmpty();
    EnglishNonEmpty();
  }

  lemma FrenchNonEmpty()
    ensures "" !in French.Values
  {
  }

  lemma EnglishNonEmpty()
    ensures "" !in English.Values
  {
  }

  /** For a known language, a key has text exactly when it is one of the tables' keys. */
  lemma KnownLanguageHasText(lang: string, key: string)
    requires lang == "fr" || lang == "en"
    ensures HasText(TableFor(lang), key) <==> key in French
  {
    if key in TableFor(lang) {
      assert TableFor(lang)[key] in TableFor(lang).Values;
    }
  }

  /** Each element either takes the table's text for its key or keeps its own; keys and order never change. */
  lemma RelabeledAt(table: map<string, string>, elements: seq<TaggedElement>, i: nat)
    requires i < |elements|
    ensures Relabeled(table, elements)[i].key == elements[i].key
    ensures HasText(table, elements[i].key) ==> Relabeled(table, elements)[i].text == table[elements[i].key]
    ensures !HasText(table, elements[i].key) ==> Relabeled(table, elements)[i] == elements[i]
  {
  }

  /** Swapping with an unknown language's (empty) table changes nothing. */
  lemma RelabeledUnknown(lang: string, elements: seq<TaggedElement>)
    requires lang != "fr" && lang != "en"
    ensures Relabeled(TableFor(lang), elements) == elements
  {
  }

  /** Applying the same language twice is the same as applying it once. */
  lemma RelabeledIdempotent(table: map<string, string>, elements: seq<TaggedElement>)
    ensures Relabeled(table, Relabeled(table, elements)) == Relabeled(table, elements)
  {
  }

  /**
   * A later swap overrides an earlier one wherever the earlier table had
   * text only for keys the later table also has text for.
   */
  lemma RelabeledOverrides(first: map<string, string>, second: map<string, string>, elements: seq<TaggedElement>)
    requires forall k :: HasText(first, k) ==> HasText(second, k)
    ensures Relabeled(second, Relabeled(first, elements)) == Relabeled(second, elements)
  {
  }

  /** Switching French to English and back gives exactly the texts a single switch to French gives, and vice versa. */
  lemma RoundTrip(elements: seq<TaggedElement>)
    ensures Relabeled(French, Relabeled(English, elements)) == Relabeled(French, elements)
    ensures Relabeled(English, Relabeled(French, elements)) == Relabeled(English, elements)
  {
    TablesSameKeys();
    TablesNonEmpty();
    RelabeledOverrides(English, French, elements);
    RelabeledOverrides(French, English, elements);
  }

  /** The element walk of a swap, in place and in document order. */
  method SwapTexts(elements: array<TaggedElement>, table: map<string, string>)
    modifies elements
    ensures elements[..] == Relabeled(table, old(elements[..]))
  {
    for i := 0 to elements.Length
      invariant forall k :: 0 <= k < i ==> elements[k] == Relabel(table, old(elements[k]))
      invariant forall k :: i <= k < elements.Length ==> elements[k] == old(elements[k])
    {
      var key := elements[i].key;
      if key in table && table[key] != "" {
        elements[i] := elements[i].(text := table[key]);
      }
    }
  }

  class LanguageToggle {
    const root: Document
    const storage: LocalStorage
    var currentLang: string

    /** Reads the stored preference and applies it; storage is not written. */
    constructor (root: Document, storage: LocalStorage)
      modifies root`dataLang, root.tagged
      ensures this.root == root && this.storage == storage
      ensures currentLang == LoadLang(storage.GetItem(LangKey))
      ensures root.dataLang == Some(currentLang)
      ensures root.tagged[..] == Relabeled(TableFor(currentLang), old(root.tagged[..]))
    {
      this.root := root;
      this.storage := storage;
      currentLang := OrElse(storage.GetItem(LangKey), "fr");
      new;
      SetLanguage(currentLang);
    }

    /** Marks the root with the language and swaps the text of every tagged element the table covers. */
    method SetLanguage(lang: string)
      modifies root`dataLang, root.tagged
      ensures root.dataLang == Some(lang)
      ensures root.tagged[..] == Relabeled(TableFor(lang), old(root.tagged[..]))
    {
      root.dataLang := Some(lang);
      SwapTexts(root.tagged, TableFor(lang));
    }

    /** The click handler: flip the language, apply it, persist it. */
    method Click()
      modifies this`currentLang, root`dataLang, root.tagged, storage
      ensures currentLang == ToggledLang(old(currentLang))
      ensures root.dataLang == Some(currentLang)
      ensures root.tagged[..] == Relabeled(TableFor(currentLang), old(root.tagged[..]))
      ensures storage.items == old(storage.items)[LangKey := currentLang]
      ensures LoadLang(storage.GetItem(LangKey)) == currentLang
    {
      currentLang := ToggledLang(currentLang);
      SetLanguage(currentLang);
      storage.SetItem(LangKey, currentLang);
    }
  }
}
