/**
 * The settings window: the settings dictionary it holds, the form that shows
 * it, the validation of the delimiters on submit, and the fallbacks taken
 * when the settings are loaded.
 */
module Settings {
  import opened Wrappers
  import opened Text

  /** A value of the settings dictionary: a string or a check-box state. */
  datatype Value = Str(s: string) | Flag(b: bool)

  /** `self.defaults`. */
  const Defaults: map<string, Value> :=
    map["delimUser" := Str("user"), "delimAssistant" := Str("assistant"), "delimSystem" := Str("system"),
        "enableSysPrompt" := Flag(false), "hideSysPrompt" := Flag(false), "sysPrompt" := Str(""),
        "loadFixedModel" := Flag(false), "selectedModel" := Str("")]

  /** Python truthiness of a value. */
  predicate Truthy(v: Value) {
    match v
    case Str(s) => s != ""
    case Flag(b) => b
  }

  /** The contents of the form's widgets. */
  datatype Form = Form(user: string, assistant: string, system: string, enableSysPrompt: bool,
                       hideSysPrompt: bool, sysPrompt: string, fixedModel: bool, selectedModel: string)

  /**
   * The submit test: the chained `user != assistant != system` compares only
   * neighbours, and every delimiter must be non-empty.
   */
  predicate Rejected(u: string, a: string, s: string) {
    !(u != a && a != s) || |u| == 0 || |a| == 0 || |s| == 0
  }

  /** Equal user and system delimiters pass the test, since the chain never compares them. */
  lemma {:induction false} UserMayEqualSystem(u: string, a: string)
    requires u != a && |u| > 0 && |a| > 0
    ensures !Rejected(u, a, u)
  {
  }

  /** The dictionary a valid submission stores. */
  function Submitted(u: string, a: string, s: string, f: Form): map<string, Value> {
    map["delimUser" := Str(u), "delimAssistant" := Str(a), "delimSystem" := Str(s),
        "enableSysPrompt" := Flag(f.enableSysPrompt), "hideSysPrompt" := Flag(f.hideSysPrompt),
        "sysPrompt" := Str(f.sysPrompt), "loadFixedModel" := Flag(f.fixedModel),
        "selectedModel" := Str(f.selectedModel)]
  }

  /** The three delimiter keys, whose values the rejected submit compares. */
  predicate HasDelimKeys(st: map<string, Value>) {
    "delimUser" in st && "delimAssistant" in st && "delimSystem" in st
  }

  /** A rejected field shows "invalid option" when it differs from the stored value. */
  function Marked(stored: Value, lowered: string, field: string): string {
    if stored != Str(lowered) then "invalid option" else field
  }

  /** `loadSettings(True)`: take the file's dictionary if there is one, and the defaults if its key count is off. */
  function Loaded(current: map<string, Value>, file: Option<map<string, Value>>): map<string, Value> {
    var st := if file.Some? then file.value else current;
    if |st.Keys| != |Defaults.Keys| then Defaults else st
  }

  /** After a load with the file checked, the dictionary has as many keys as the defaults. */
  lemma {:induction false} LoadedKeyCount(current: map<string, Value>, file: Option<map<string, Value>>)
    ensures |Loaded(current, file).Keys| == |Defaults.Keys|
    ensures var st := if file.Some? then file.value else current;
            |st.Keys| == |Defaults.Keys| ==> Loaded(current, file) == st
  {
  }

  /** The dictionary a submission stores has the eight keys, so a file written from it loads back as it is. */
  lemma {:induction false} SubmittedLoadsBack(u: string, a: string, s: string, f: Form, current: map<string, Value>)
    ensures Submitted(u, a, s, f).Keys == Defaults.Keys
    ensures Loaded(current, Some(Submitted(u, a, s, f))) == Submitted(u, a, s, f)
  {
  }

  /** A dictionary whose key count is off (one with a ninth key, say) gives way to the defaults. */
  lemma {:induction false} OddKeyCountFallsBack(current: map<string, Value>, file: map<string, Value>)
    requires |file.Keys| != |Defaults.Keys|
    ensures Loaded(current, Some(file)) == Defaults
  {
  }

  /** The dictionary has every key with the type the form's setters take. */
  predicate WellTyped(st: map<string, Value>) {
    && "delimUser" in st && st["delimUser"].Str?
    && "delimAssistant" in st && st["delimAssistant"].Str?
    && "delimSystem" in st && st["delimSystem"].Str?
    && "enableSysPrompt" in st && st["enableSysPrompt"].Flag?
    && "hideSysPrompt" in st && st["hideSysPrompt"].Flag?
    && "sysPrompt" in st && st["sysPrompt"].Str?
    && "loadFixedModel" in st
    && "selectedModel" in st
  }

  /** The model the form shows: the stored one when it is listed, else the first listed. */
  function ShownModel(selected: Value, models: seq<string>): (r: Option<string>)
    ensures selected.Str? && selected.s in models ==> r == Some(selected.s)
    ensures !(selected.Str? && selected.s in models) ==> (r.Some? <==> |models| > 0) && (r.Some? ==> r.value == models[0])
  {
    if selected.Str? && selected.s in models then Some(selected.s)
    else if |models| > 0 then Some(models[0])
    else None
  }

  class SettingsWindow {
    /** `self.settings`. */
    var settings: map<string, Value>
    /** The widgets of the form. */
    var form: Form
    /** Whether the window is shown. */
    var visible: bool
    /** The model names `ollama list` printed when the window was built. */
    const models: seq<string>

    /** `__init__`: start from the defaults and load the settings, checking the file. */
    constructor(models0: seq<string>, file: Option<map<string, Value>>)
      ensures models == models0 && !visible
      ensures settings == Loaded(Defaults, file)
    {
      models := models0;
      settings := Defaults;
      form := Form("", "", "", false, false, "", false, "");
      visible := false;
      new;
      var _ := LoadSettings(true, file);
    }

    /**
     * `loadSettings`: with `checkFile`, read the file (a missing or unreadable
     * one leaves the dictionary as it was) and fall back to the defaults when
     * the key count is off; then fill the form from the dictionary. A missing
     * or mistyped value, or an empty model list with an unlisted stored model,
     * makes the filling fail.
     */
    method LoadSettings(checkFile: bool, file: Option<map<string, Value>>) returns (ok: bool)
      modifies this
      ensures settings == if checkFile then Loaded(old(settings), file) else old(settings)
      ensures visible == old(visible)
      ensures ok <==> WellTyped(settings) && ShownModel(settings["selectedModel"], models).Some?
      ensures ok ==> form == Form(settings["delimUser"].s, settings["delimAssistant"].s, settings["delimSystem"].s,
                                  settings["enableSysPrompt"].b, settings["hideSysPrompt"].b, settings["sysPrompt"].s,
                                  Truthy(settings["loadFixedModel"]),
                                  ShownModel(settings["selectedModel"], models).value)
      ensures !ok ==> form == old(form)
    {
      if checkFile {
        if file.Some? {
          settings := file.value;
        }
        if |settings.Keys| != |Defaults.Keys| {
          settings := Defaults;
        }
      }
      if !WellTyped(settings) {
        return false;
      }
      var shown := ShownModel(settings["selectedModel"], models);
      if shown.None? {
        return false;
      }
      form := Form(settings["delimUser"].s, settings["delimAssistant"].s, settings["delimSystem"].s,
                   settings["enableSysPrompt"].b, settings["hideSysPrompt"].b, settings["sysPrompt"].s,
                   Truthy(settings["loadFixedModel"]), shown.value);
      ok := true;
    }

    /**
     * `submit`: lower-case the three delimiters; when they fail the test, mark
     * every one that differs from its stored value and keep the settings;
     * otherwise store the form as the new dictionary, hide the window and
     * emit `submitted` once.
     */
    method Submit() returns (signals: seq<string>, ok: bool)
      modifies this
      ensures var u := LowerStr(old(form).user);
              var a := LowerStr(old(form).assistant);
              var s := LowerStr(old(form).system);
        if Rejected(u, a, s) then
          && settings == old(settings) && visible == old(visible) && signals == []
          && (ok <==> HasDelimKeys(old(settings)))
          && form == old(form).(user := if "delimUser" in settings then Marked(settings["delimUser"], u, old(form).user)
                                        else old(form).user,
                                assistant := if "delimUser" in settings && "delimAssistant" in settings
                                             then Marked(settings["delimAssistant"], a, old(form).assistant)
                                             else old(form).assistant,
                                system := if HasDelimKeys(settings) then Marked(settings["delimSystem"], s, old(form).system)
                                          else old(form).system)
        else
          && ok && settings == Submitted(u, a, s, old(form)) && form == old(form)
          && !visible && signals == ["New settings"]
    {
      var u := LowerStr(form.user);
      var a := LowerStr(form.assistant);
      var s := LowerStr(form.system);
      signals := [];
      if Rejected(u, a, s) {
        // Each lookup raises a `KeyError` when its key is missing, after the earlier fields were marked.
        if "delimUser" !in settings {
          return [], false;
        }
        if settings["delimUser"] != Str(u) {
          form := form.(user := "invalid option");
        }
        if "delimAssistant" !in settings {
          return [], false;
        }
        if settings["delimAssistant"] != Str(a) {
          form := form.(assistant := "invalid option");
        }
        if "delimSystem" !in settings {
          return [], false;
        }
        if settings["delimSystem"] != Str(s) {
          form := form.(system := "invalid option");
        }
        return [], true;
      }
      settings := Submitted(u, a, s, form);
      visible := false;
      signals := ["New settings"];
      ok := true;
    }

    /**
     * `reset` as written: the settings file is deleted and the settings
     * reloaded with the file checked, which finds no file and keeps the
     * dictionary the window already holds.
     */
    method Reset() returns (ok: bool)
      modifies this
      ensures settings == Loaded(old(settings), None)
      ensures visible == old(visible)
      ensures ok <==> WellTyped(settings) && ShownModel(settings["selectedModel"], models).Some?
      ensures ok ==> form == Form(settings["delimUser"].s, settings["delimAssistant"].s, settings["delimSystem"].s,
                                  settings["enableSysPrompt"].b, settings["hideSysPrompt"].b, settings["sysPrompt"].s,
                                  Truthy(settings["loadFixedModel"]),
                                  ShownModel(settings["selectedModel"], models).value)
      ensures !ok ==> form == old(form)
    {
      ok := LoadSettings(true, None);
    }

    /** The reset the button's label promises: back to the defaults, and the form refilled from them. */
    method ResetToDefaults() returns (ok: bool)
      modifies this
      ensures settings == Defaults
      ensures ok <==> |models| > 0
      ensures ok ==> form == Form("user", "assistant", "system", false, false, "", false, ShownModel(Str(""), models).value)
      ensures visible == old(visible)
    {
      settings := Defaults;
      ok := LoadSettings(false, None);
    }
  }

  /** A reset leaves every eight-key dictionary as it was: a submitted one is not put back to the defaults. */
  lemma {:induction false} ResetKeepsSubmitted(u: string, a: string, s: string, f: Form)
    ensures Loaded(Submitted(u, a, s, f), None) == Submitted(u, a, s, f)
    ensures u != "user" ==> Loaded(Submitted(u, a, s, f), None) != Defaults
  {
    SubmittedLoadsBack(u, a, s, f, Submitted(u, a, s, f));
    assert Submitted(u, a, s, f)["delimUser"] == Str(u);
  }
}
