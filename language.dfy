/** The site-wide language context: the active language code, its toggle, and the
    document's `lang`/`dir` attributes that an effect keeps in step with it. */
module Language {

  /** The code a session starts in. */
  const Default := "ar"

  /** `prev === "ar" ? "en" : "ar"`. */
  function Toggled(lang: string): (r: string)
    ensures lang == "ar" ==> r == "en"
    ensures lang != "ar" ==> r == "ar"
  {
    if lang == "ar" then "en" else "ar"
  }

  /** The text direction written to the document for a language code. */
  function Direction(lang: string): (dir: string)
    ensures dir == "rtl" <==> lang == "ar"
    ensures dir == "ltr" <==> lang != "ar"
  {
    if lang == "ar" then "rtl" else "ltr"
  }

  /** On the two codes the site uses, toggling twice is the identity. */
  lemma ToggleTwice(lang: string)
    requires lang == "ar" || lang == "en"
    ensures Toggled(Toggled(lang)) == lang
  {
  }

  /** Any other code is not restored by two toggles: the first one maps it to "ar". */
  lemma ToggleTwiceNormalises(lang: string)
    requires lang != "ar" && lang != "en"
    ensures Toggled(Toggled(lang)) == "en" && Toggled(Toggled(lang)) != lang
  {
  }

  /** Every toggle flips the document direction, whatever the code was. */
  lemma ToggleFlipsDirection(lang: string)
    ensures Direction(Toggled(lang)) != Direction(lang)
  {
  }

  /** The provider's state: `lang` and the two attributes of the document element. */
  class LanguageProvider {
    var lang: string
    var documentLang: string
    var documentDir: string

    /** The effect has run for the current code. */
    predicate Synced()
      reads this
    {
      documentLang == lang && documentDir == Direction(lang)
    }

    /** Mounting: the state starts at "ar" and the effect runs once. */
    constructor ()
      ensures lang == Default && Synced()
      ensures documentLang == "ar" && documentDir == "rtl"
    {
      lang := Default;
      documentLang := Default;
      documentDir := Direction(Default);
    }

    /** The effect on `[lang]`: write the code and its direction to the document. */
    method SyncDocument()
      modifies this`documentLang, this`documentDir
      ensures Synced()
    {
      documentLang := lang;
      documentDir := if lang == "ar" then "rtl" else "ltr";
    }

    /** `setLang(code)`, exposed by the context, followed by the effect. */
    method SetLang(code: string)
      modifies this
      ensures lang == code && Synced()
    {
      lang := code;
      SyncDocument();
    }

    /** `toggleLanguage()` followed by the effect. */
    method ToggleLanguage()
      modifies this
      ensures lang == Toggled(old(lang)) && Synced()
      ensures documentDir != old(Direction(lang))
    {
      ToggleFlipsDirection(lang);
      lang := if lang == "ar" then "en" else "ar";
      SyncDocument();
    }
  }
}
