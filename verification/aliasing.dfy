/** The settings object as app.js shares it. When nothing is stored,
    `load` returns the built-in defaults object itself, so the live
    settings and the defaults are one object; the settings page then
    assigns into it, and an import without settings takes that same,
    edited, object back. This module models the sharing explicitly, to
    exhibit the consequence; the rest of the model treats the built-in
    defaults as the fixed values they are meant to be. */
module SettingsAliasing {
  import opened Wrappers
  import opened Records
  import Text
  import SettingsPage
  import Backup

  /** The live settings, the defaults object, and whether they are one object. */
  datatype Session = Session(current: Settings, builtIn: Settings, shared: bool)

  /** Page load: the stored settings, or the defaults object itself. */
  function StartAsWritten(stored: Option<Settings>, builtIn: Settings): (ss: Session)
    ensures stored.None? ==> ss.shared && ss.current == ss.builtIn == builtIn
    ensures stored.Some? ==> !ss.shared && ss.current == stored.value && ss.builtIn == builtIn
  {
    match stored
    case None => Session(builtIn, builtIn, true)
    case Some(s) => Session(s, builtIn, false)
  }

  /** The settings page's save assigns into the live object, and so into
      the defaults as well while the two are shared. */
  function SaveAsWritten(ss: Session, form: SettingsForm): (r: Session)
    ensures r.current == SettingsPage.Saved(form) && r.shared == ss.shared
    ensures r.builtIn == (if ss.shared then SettingsPage.Saved(form) else ss.builtIn)
  {
    var s := SettingsPage.Saved(form);
    Session(s, if ss.shared then s else ss.builtIn, ss.shared)
  }

  type SettingsForm = SettingsPage.SettingsForm

  /** Import: the file's settings, or else the defaults object, shared again. */
  function ImportAsWritten(ss: Session, fromFile: Option<Settings>): (r: Session)
    ensures fromFile.Some? ==> r.current == fromFile.value && !r.shared
    ensures fromFile.None? ==> r.current == ss.builtIn && r.shared
    ensures r.builtIn == ss.builtIn
  {
    match fromFile
    case Some(s) => Session(s, ss.builtIn, false)
    case None => Session(ss.builtIn, ss.builtIn, true)
  }

  /** With nothing stored, saving the title "Casa" and then importing a
      backup without settings shows "Casa", not the built-in "Per Anna"
      (`BuiltInDefaults` has that title). */
  lemma SavedTitleLeaksIntoImport(builtIn: Settings)
    requires builtIn.title == Some(DefaultTitle)
    ensures
      var form := SettingsPage.SettingsForm("", "", "Casa", "");
      var after := ImportAsWritten(SaveAsWritten(StartAsWritten(None, builtIn), form), None);
      after.current.title == Some("Casa") && after.current.title != builtIn.title
  {
    var form := SettingsPage.SettingsForm("", "", "Casa", "");
    assert SettingsPage.Saved(form).title == Some("Casa") by {
      Text.TrimKeepsTrimmed("Casa");
    }
  }

  /** The same sequence against the corrected model: the save changes only
      the state, and the import falls back to the built-in settings. */
  lemma CorrectedImportRestoresBuiltIn(st: State, form: SettingsForm, snapshot: Backup.Snapshot,
                                       decode: string -> Option<Blob>, defaults: Defaults, now: string)
    requires snapshot.settings.None? && defaults.settings.title == Some(DefaultTitle)
    ensures Backup.Import(SettingsPage.Save(st, form), Some(snapshot), decode, defaults, now).settings.title
            == Some(DefaultTitle)
  {
    Backup.MissingSettingsReadAsBuiltIn(SettingsPage.Save(st, form), snapshot, decode, defaults, now);
  }
}
