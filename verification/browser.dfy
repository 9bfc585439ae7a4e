/**
 * The parts of the browser the controllers touch, as plain state:
 * the page's key-value preference storage and the document's root
 * element together with its elements tagged for translation.
 */
module Browser {
  import opened Wrappers

  /** An element carrying a `data-translate` key and its current text content. */
  datatype TaggedElement = TaggedElement(key: string, text: string)

  /**
   * The value of `getItem(key) || fallback`: a missing entry and an empty
   * string are both falsy, so both give the fallback.
   */
  function OrElse(stored: Option<string>, fallback: string): (v: string)
    ensures v == fallback || stored == Some(v)
    ensures stored == None ==> v == fallback
    ensures stored == Some("") ==> v == fallback
    ensures stored.Some? && stored.value != "" ==> v == stored.value
    ensures fallback != "" ==> v != ""
  {
    match stored
    case Some(s) => if s != "" then s else fallback
    case None => fallback
  }

  /** Durable string-to-string preference storage. */
  class LocalStorage {
    var items: map<string, string>

    constructor (initial: map<string, string>)
      ensures items == initial
    {
      items := initial;
    }

    function GetItem(key: string): (v: Option<string>)
      reads this
      ensures v.Some? <==> key in items
      ensures v.Some? ==> v.value == items[key]
    {
      if key in items then Some(items[key]) else None
    }

    method SetItem(key: string, value: string)
      modifies this
      ensures items == old(items)[key := value]
    {
      items := items[key := value];
    }
  }

  /**
   * The document: the root element's `data-theme` and `data-lang`
   * attributes, and the elements tagged with `data-translate`, in
   * document order.
   */
  class Document {
    var dataTheme: Option<string>
    var dataLang: Option<string>
    const tagged: array<TaggedElement>

    constructor (theme: Option<string>, lang: Option<string>, elements: seq<TaggedElement>)
      ensures dataTheme == theme && dataLang == lang
      ensures fresh(tagged) && tagged[..] == elements
    {
      dataTheme, dataLang := theme, lang;
      tagged := new TaggedElement[|elements|](i requires 0 <= i < |elements| => elements[i]);
    }
  }
}
