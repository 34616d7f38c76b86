/** The settings page: the form it shows, saving it, and the brand text the
    header displays from the saved settings. */
module SettingsPage {
  import opened Wrappers
  import opened Text
  import opened Records

  /** The four inputs of the settings form. */
  datatype SettingsForm = SettingsForm(toWhatsapp: string, toEmail: string, title: string, subtitle: string)

  /** `renderSettingsForm`: each input shows its setting, or "" when missing. */
  function Render(s: Settings): (f: SettingsForm)
    ensures f.title == Or(s.title, "") && f.subtitle == Or(s.subtitle, "")
    ensures f.toWhatsapp == Or(s.toWhatsapp, "") && f.toEmail == Or(s.toEmail, "")
  {
    SettingsForm(Or(s.toWhatsapp, ""), Or(s.toEmail, ""), Or(s.title, ""), Or(s.subtitle, ""))
  }

  /** The settings a save writes: trimmed targets, and a trimmed title and
      subtitle that fall back to the default text when blank. */
  function Saved(form: SettingsForm): (s: Settings)
    ensures s.toWhatsapp == Some(Trim(form.toWhatsapp)) && s.toEmail == Some(Trim(form.toEmail))
    ensures Trim(form.title) != [] ==> s.title == Some(Trim(form.title))
    ensures Trim(form.title) == [] ==> s.title == Some(DefaultTitle)
    ensures Trim(form.subtitle) != [] ==> s.subtitle == Some(Trim(form.subtitle))
    ensures Trim(form.subtitle) == [] ==> s.subtitle == Some(DefaultSubtitle)
  {
    Settings(
      Some(TrimOr(form.title, DefaultTitle)),
      Some(TrimOr(form.subtitle, DefaultSubtitle)),
      Some(Trim(form.toWhatsapp)),
      Some(Trim(form.toEmail)))
  }

  /** `(raw || "").trim() || fallback`. */
  function TrimOr(raw: string, fallback: string): string {
    if Trim(raw) == [] then fallback else Trim(raw)
  }

  lemma TrimOrStable(raw: string, fallback: string)
    requires fallback != [] && Trimmed(fallback)
    ensures TrimOr(TrimOr(raw, fallback), fallback) == TrimOr(raw, fallback)
  {
    TrimIdempotent(raw);
    TrimKeepsTrimmed(fallback);
  }

  /** The "save settings" button: only the settings change. */
  function Save(st: State, form: SettingsForm): (r: State)
    ensures r.settings == Saved(form)
    ensures r.(settings := st.settings) == st
  {
    st.(settings := Saved(form))
  }

  /** `applyBrand`: the header title, falling back to the default when the
      setting is missing or "". */
  function BrandTitle(s: Settings): string {
    Or(s.title, DefaultTitle)
  }

  /** After a save the title and subtitle are never blank, and the brand shows
      exactly the saved title. */
  lemma SavedTitleNeverBlank(form: SettingsForm)
    ensures Saved(form).title.Some? && Saved(form).title.value != []
    ensures Saved(form).subtitle.Some? && Saved(form).subtitle.value != []
    ensures BrandTitle(Saved(form)) == Saved(form).title.value
  {
  }

  /** The default title and subtitle have no surrounding white space. */
  lemma DefaultTextsTrimmed()
    ensures DefaultTitle != [] && Trimmed(DefaultTitle)
    ensures DefaultSubtitle != [] && Trimmed(DefaultSubtitle)
  {
    assert DefaultTitle[0] == 'P' && DefaultTitle[|DefaultTitle| - 1] == 'a';
    assert DefaultSubtitle[0] == 'U' && DefaultSubtitle[|DefaultSubtitle| - 1] == '.';
  }

  /** Saving is a fixpoint of showing the form: saving again the form the
      page displays after a save writes the same settings. */
  lemma {:induction false} SaveOfRenderedIsStable(form: SettingsForm)
    ensures Saved(Render(Saved(form))) == Saved(form)
  {
    var t := TrimOr(form.title, DefaultTitle);
    var u := TrimOr(form.subtitle, DefaultSubtitle);
    var w := Trim(form.toWhatsapp);
    var m := Trim(form.toEmail);
    assert Saved(form) == Settings(Some(t), Some(u), Some(w), Some(m));
    assert Or(Some(t), "") == t && Or(Some(u), "") == u && Or(Some(w), "") == w && Or(Some(m), "") == m;
    assert Render(Saved(form)) == SettingsForm(w, m, t, u);
    DefaultTextsTrimmed();
    TrimOrStable(form.title, DefaultTitle);
    TrimOrStable(form.subtitle, DefaultSubtitle);
    TrimIdempotent(form.toWhatsapp);
    TrimIdempotent(form.toEmail);
  }
}
