/** The Option datatype shared by the other modules. */
module Optional {

  datatype Option<+T> = None | Some(value: T)
}

/**
 * The localized-message lookup `_` (src/utils.ts) together with the two
 * pieces of ambient state it reads: the message catalog, keyed by locale
 * code, and the process-wide default-locale slot written by
 * `setDefaultLocale` (src/index.ts).
 */
module Messages {
  import opened Optional

  /** The aliases every locale of the catalog defines (src/locale/type.ts). */
  datatype Key = FieldRequiredError | InvalidEmailError

  /** The entries of one locale: one string per alias. */
  datatype Localization = Localization(fieldRequiredError: string, invalidEmailError: string)

  function Entry(l: Localization, alias: Key): string
  {
    match alias
    case FieldRequiredError => l.fieldRequiredError
    case InvalidEmailError => l.invalidEmailError
  }

  /**
   * The catalog: the locale modules the library ships, keyed by their code.
   * Its key set is the set of available locales; it holds at least `en` and
   * `ru`, and a locale code is never the empty string.
   */
  type Catalog = c: map<string, Localization> | "en" in c && "ru" in c && "" !in c
    witness map["en" := Localization("", ""), "ru" := Localization("", "")]

  /** JavaScript truthiness of an optional string: present and non-empty. */
  predicate Truthy(s: Option<string>)
  {
    s.Some? && s.value != ""
  }

  /** `this?.locale || window.<default slot> || 'en'` */
  function ResolveLocale(receiverLocale: Option<string>, defaultLocale: Option<string>): (r: string)
    ensures r != ""
    ensures r == "en" || receiverLocale == Some(r) || defaultLocale == Some(r)
  {
    if Truthy(receiverLocale) then receiverLocale.value
    else if Truthy(defaultLocale) then defaultLocale.value
    else "en"
  }

  /**
   * What `_` reads when it is called: the catalog, the locale of the receiver
   * it was called on (absent when the receiver is undefined or has none) and
   * the content of the process-wide default slot.
   */
  datatype Ambient = Ambient(catalog: Catalog, receiverLocale: Option<string>, defaultLocale: Option<string>)

  /**
   * An ambient state whose resolved locale is in the catalog; with any other
   * the indexing in `_` would throw, and none arises from well-typed callers.
   */
  type Context = a: Ambient | ResolveLocale(a.receiverLocale, a.defaultLocale) in a.catalog
    witness Ambient(map["en" := Localization("", ""), "ru" := Localization("", "")], None, None)

  /** `_(alias)`: the catalog entry of the resolved locale, untransformed. */
  function Translate(ctx: Context, alias: Key): string
  {
    Entry(ctx.catalog[ResolveLocale(ctx.receiverLocale, ctx.defaultLocale)], alias)
  }

  /** A truthy receiver locale wins over the default slot. */
  lemma ReceiverLocaleWins(ctx: Context, alias: Key)
    requires Truthy(ctx.receiverLocale)
    ensures ctx.receiverLocale.value in ctx.catalog
    ensures Translate(ctx, alias) == Entry(ctx.catalog[ctx.receiverLocale.value], alias)
  {
  }

  /** Without a receiver locale, a truthy default slot decides the locale. */
  lemma DefaultLocaleUsed(ctx: Context, alias: Key)
    requires !Truthy(ctx.receiverLocale) && Truthy(ctx.defaultLocale)
    ensures ctx.defaultLocale.value in ctx.catalog
    ensures Translate(ctx, alias) == Entry(ctx.catalog[ctx.defaultLocale.value], alias)
  {
  }

  /** With neither a receiver locale nor a default, the English entry is returned. */
  lemma EnglishFallback(catalog: Catalog, receiverLocale: Option<string>, defaultLocale: Option<string>, alias: Key)
    requires !Truthy(receiverLocale) && !Truthy(defaultLocale)
    ensures ResolveLocale(receiverLocale, defaultLocale) == "en"
    ensures Translate(Ambient(catalog, receiverLocale, defaultLocale), alias) == Entry(catalog["en"], alias)
  {
  }

  /**
   * The module-level state of the library: the catalog it imports and the
   * global default-locale slot, initially unset.
   */
  class Globals {
    const catalog: Catalog
    var defaultLocale: Option<string>

    /** The slot only ever holds a locale of the catalog. */
    ghost predicate Valid()
      reads this
    {
      defaultLocale.Some? ==> defaultLocale.value in catalog
    }

    constructor (catalog: Catalog)
      ensures Valid()
      ensures this.catalog == catalog && defaultLocale == None
    {
      this.catalog := catalog;
      defaultLocale := None;
    }

    /** The context of a validator called with an undefined receiver. */
    function Unbound(): Context
      reads this
      requires Valid()
    {
      Ambient(catalog, None, defaultLocale)
    }

    /** `setDefaultLocale(locale)`: writes the slot and returns the locale. */
    method SetDefaultLocale(locale: string) returns (r: string)
      requires Valid()
      requires locale in catalog
      modifies this
      ensures Valid()
      ensures defaultLocale == Some(locale) && r == locale
      ensures forall alias :: Translate(Unbound(), alias) == Entry(catalog[locale], alias)
    {
      defaultLocale := Some(locale);
      r := locale;
    }
  }
}
