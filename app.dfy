/**
 * The application window's part in the transcript protocol: building the
 * delimiters from the settings, renaming the markers in the shown chat when
 * they change, and choosing the model to use.
 */
module App {
  import opened Wrappers
  import opened Text
  import opened Transcript
  import opened Settings
  import opened ChatDisplay

  /** The three keys of the delimiter dictionary, in its insertion order. */
  datatype Role = User | Assistant | System

  const RoleKeys: seq<Role> := [User, Assistant, System]

  function DelimOf(d: Delims, key: Role): Delim {
    match key
    case User => d.user
    case Assistant => d.assistant
    case System => d.system
  }

  /** `f"{value}"` for the values the settings hold. */
  function ValueText(v: Value): string {
    match v
    case Str(s) => s
    case Flag(b) => if b then "True" else "False"
  }

  /** A delimiter is the setting's text followed by a colon. */
  function DelimFrom(v: Value): (r: Delim)
    ensures r == ValueText(v) + ":"
  {
    ValueText(v) + ":"
  }

  /** `newDelims` of `fetchSettings`, or the first settings key that is missing (a `KeyError`). */
  function NewDelims(st: map<string, Value>): (r: Result)
    ensures r.Ok? <==> HasDelimKeys(st)
    ensures r.Ok? ==> r.delims == Delims(DelimFrom(st["delimUser"]), DelimFrom(st["delimAssistant"]),
                                         DelimFrom(st["delimSystem"]))
  {
    if "delimUser" !in st then MissingKey("delimUser")
    else if "delimAssistant" !in st then MissingKey("delimAssistant")
    else if "delimSystem" !in st then MissingKey("delimSystem")
    else Ok(Delims(DelimFrom(st["delimUser"]), DelimFrom(st["delimAssistant"]), DelimFrom(st["delimSystem"])))
  }

  datatype Result = Ok(delims: Delims) | MissingKey(key: string)

  /** Delimiters built from a submitted form are well formed and lower case. */
  lemma {:induction false} SubmittedDelimsWellFormed(u: string, a: string, s: string, f: Form)
    requires !Rejected(LowerStr(u), LowerStr(a), LowerStr(s))
    ensures var r := NewDelims(Submitted(LowerStr(u), LowerStr(a), LowerStr(s), f));
      && r.Ok?
      && LowerCase(r.delims.user) && LowerCase(r.delims.assistant) && LowerCase(r.delims.system)
      && r.delims.user != r.delims.assistant && r.delims.assistant != r.delims.system
      && |r.delims.user| >= 2 && |r.delims.assistant| >= 2 && |r.delims.system| >= 2
  {
    var lu, la, ls := LowerStr(u), LowerStr(a), LowerStr(s);
    var st := Submitted(lu, la, ls, f);
    assert st["delimUser"] == Str(lu) && st["delimAssistant"] == Str(la) && st["delimSystem"] == Str(ls);
    assert NewDelims(st) == Ok(Delims(lu + ":", la + ":", ls + ":"));
    LowerStrIsLowerCase(u);
    LowerStrIsLowerCase(a);
    LowerStrIsLowerCase(s);
    ColonKeepsLowerCase(LowerStr(u));
    ColonKeepsLowerCase(LowerStr(a));
    ColonKeepsLowerCase(LowerStr(s));
    ColonIsInjective(LowerStr(u), LowerStr(a));
    ColonIsInjective(LowerStr(a), LowerStr(s));
  }

  lemma {:induction false} ColonKeepsLowerCase(s: string)
    requires LowerCase(s)
    ensures LowerCase(s + ":")
  {
    assert forall k :: 0 <= k < |s| ==> (s + ":")[k] == s[k];
  }

  lemma {:induction false} ColonIsInjective(a: string, b: string)
    requires a != b
    ensures a + ":" != b + ":"
  {
    if |a| == |b| {
      var k :| 0 <= k < |a| && a[k] != b[k];
      assert (a + ":")[k] == a[k];
    }
  }

  // ---------------------------------------------------------------------
  // Renaming the delimiters
  // ---------------------------------------------------------------------

  /** A rename of one marker: its old and its new text. */
  datatype Change = Change(from: string, to: string)

  /** The changes for the keys before the `i`-th, in key order. */
  function ChangesUpTo(od: Delims, nd: Delims, i: nat): seq<Change>
    requires i <= |RoleKeys|
  {
    if i == 0 then []
    else
      var key := RoleKeys[i - 1];
      ChangesUpTo(od, nd, i - 1)
      + (if DelimOf(nd, key) != DelimOf(od, key) then [Change(DelimOf(od, key), DelimOf(nd, key))] else [])
  }

  /** The changes from `od` to `nd`: one per key whose delimiter differs, user first and system last. */
  function Changes(od: Delims, nd: Delims): seq<Change> {
    (if nd.user != od.user then [Change(od.user, nd.user)] else [])
    + (if nd.assistant != od.assistant then [Change(od.assistant, nd.assistant)] else [])
    + (if nd.system != od.system then [Change(od.system, nd.system)] else [])
  }

  /** The loop over the three keys builds exactly these changes. */
  lemma {:induction false} ChangesUpToAll(od: Delims, nd: Delims)
    ensures ChangesUpTo(od, nd, 3) == Changes(od, nd)
  {
    assert RoleKeys[0] == User && RoleKeys[1] == Assistant && RoleKeys[2] == System;
    assert ChangesUpTo(od, nd, 1) == [] + (if nd.user != od.user then [Change(od.user, nd.user)] else []);
  }

  /** Every change renames something, and there are none exactly when the delimiters agree. */
  lemma {:induction false} ChangesSpec(od: Delims, nd: Delims)
    ensures var cs := Changes(od, nd);
      && (forall c :: c in cs ==> c.from != c.to)
      && (cs == [] <==> od == nd)
      && (od.user != nd.user ==> cs[0] == Change(od.user, nd.user))
      && (od.system != nd.system ==> cs[|cs| - 1] == Change(od.system, nd.system))
  {
  }

  /** The text after every change is applied in turn, each replacing all its occurrences. */
  function ApplyChanges(text: string, cs: seq<Change>): string
    decreases |cs|
  {
    if cs == [] then text else ApplyChanges(ReplaceAll(text, cs[0].from, cs[0].to), cs[1..])
  }

  lemma {:induction false} ApplyChangesSnoc(text: string, cs: seq<Change>, c: Change)
    ensures ApplyChanges(text, cs + [c]) == ReplaceAll(ApplyChanges(text, cs), c.from, c.to)
    decreases |cs|
  {
    if cs != [] {
      assert (cs + [c])[1..] == cs[1..] + [c];
      ApplyChangesSnoc(ReplaceAll(text, cs[0].from, cs[0].to), cs[1..], c);
    } else {
      assert [c][1..] == [];
    }
  }

  /** A text in which no renamed marker occurs comes through the renaming unchanged. */
  lemma {:induction false} ApplyChangesAbsent(text: string, cs: seq<Change>)
    requires forall c :: c in cs ==> c.from != [] && !Contains(text, c.from)
    ensures ApplyChanges(text, cs) == text
    decreases |cs|
  {
    if cs != [] {
      ReplaceAbsent(text, cs[0].from, cs[0].to);
      assert forall c :: c in cs[1..] ==> c in cs;
      ApplyChangesAbsent(text, cs[1..]);
    }
  }

  /**
   * `updateModels` with `models` the names the server lists (the window sorts
   * them first): the fixed model when that option is on and it is listed, else
   * the previous model when it is set and listed, else the least name. A
   * missing settings key or an empty list fails.
   */
  function ChooseModel(models: seq<string>, st: map<string, Value>): (r: Option<string>)
    ensures r.Some? ==> r.value in models
  {
    if "loadFixedModel" !in st then None
    else if Truthy(st["loadFixedModel"]) && "selectedModel" !in st then None
    else if Truthy(st["loadFixedModel"]) && st["selectedModel"].Str? && st["selectedModel"].s in models then
      Some(st["selectedModel"].s)
    else if "prevModel" !in st then None
    else if st["prevModel"].Str? && st["prevModel"].s != "" && st["prevModel"].s in models then Some(st["prevModel"].s)
    else if |models| == 0 then None
    else Some(MinName(models))
  }

  /** The choice in priority order, with the least name the last resort. */
  lemma {:induction false} ChooseModelPriority(models: seq<string>, st: map<string, Value>)
    requires "loadFixedModel" in st && "selectedModel" in st && "prevModel" in st
    ensures var r := ChooseModel(models, st);
      && (Truthy(st["loadFixedModel"]) && st["selectedModel"].Str? && st["selectedModel"].s in models
          ==> r == Some(st["selectedModel"].s))
      && (!(Truthy(st["loadFixedModel"]) && st["selectedModel"].Str? && st["selectedModel"].s in models)
          && st["prevModel"].Str? && st["prevModel"].s != "" && st["prevModel"].s in models
          ==> r == Some(st["prevModel"].s))
      && (r.None? <==> |models| == 0)
      && (!(Truthy(st["loadFixedModel"]) && st["selectedModel"].Str? && st["selectedModel"].s in models)
          && !(st["prevModel"].Str? && st["prevModel"].s != "" && st["prevModel"].s in models)
          ==> r.Some? ==> forall k :: 0 <= k < |models| ==> StrLe(r.value, models[k]))
  {
  }

  /** The first loop of `changeDelims`: a change for each key whose delimiter differs. */
  method CollectChanges(od: Delims, nd: Delims) returns (changes: seq<Change>)
    ensures changes == Changes(od, nd)
  {
    changes := [];
    var i := 0;
    while i < |RoleKeys|
      invariant 0 <= i <= |RoleKeys|
      invariant changes == ChangesUpTo(od, nd, i)
    {
      var key := RoleKeys[i];
      if DelimOf(nd, key) != DelimOf(od, key) {
        changes := changes + [Change(DelimOf(od, key), DelimOf(nd, key))];
      }
      i := i + 1;
    }
    ChangesUpToAll(od, nd);
  }

  /** The replacements of `changeDelims`, made in turn on the text. */
  method Rename(text: string, changes: seq<Change>) returns (r: string)
    ensures r == ApplyChanges(text, changes)
  {
    r := text;
    var j := 0;
    while j < |changes|
      invariant 0 <= j <= |changes|
      invariant r == ApplyChanges(text, changes[..j])
    {
      ApplyChangesSnoc(text, changes[..j], changes[j]);
      assert changes[..j + 1] == changes[..j] + [changes[j]];
      r := ReplaceAll(r, changes[j].from, changes[j].to);
      j := j + 1;
    }
    assert changes[..j] == changes;
  }

  class Window {
    /** `self.delims`, unset until the settings are first fetched. */
    var delims: Option<Delims>
    /** `self.model`. */
    var model: string
    /** The chat display the window shows. */
    const display: Display

    constructor(display0: Display)
      ensures display == display0 && delims.None? && model == ""
    {
      display := display0;
      delims := None;
      model := "";
    }

    /**
     * `changeDelims`: collect the keys whose delimiter differs; with none,
     * nothing happens. Otherwise the stripped chat text has each change applied
     * in turn and replaces the shown text, and the new delimiters are kept.
     */
    method ChangeDelims(nd: Delims) returns (changes: seq<Change>)
      requires delims.Some?
      modifies this, display
      ensures changes == Changes(old(delims).value, nd)
      ensures delims == Some(nd) && model == old(model)
      ensures changes == [] ==> display.raw == old(display.raw)
      ensures changes != [] ==> display.raw == ApplyChanges(Strip(old(display.raw)), changes)
    {
      var od := delims.value;
      changes := CollectChanges(od, nd);
      if |changes| == 0 {
        ChangesSpec(od, nd);
        delims := Some(nd);
        return;
      }
      var text := Rename(display.GetText(), changes);
      display.raw := "";
      display.DisplayText(text, "");
      delims := Some(nd);
    }

    /**
     * `fetchSettings`, its delimiter part: build the delimiters from the
     * settings; the first fetch takes them as they are, later ones rename the
     * markers. A missing key is reported on the display.
     */
    method FetchSettings(st: map<string, Value>) returns (changes: seq<Change>)
      modifies this, display
      ensures model == old(model)
      ensures match NewDelims(st)
        case MissingKey(key) =>
          delims == old(delims) && changes == [] && display.raw == old(display.raw) + "fetchSettings: " + "'" + key + "'"
        case Ok(nd) =>
          delims == Some(nd)
          && (old(delims).None? ==> changes == [] && display.raw == old(display.raw))
          && (old(delims).Some? ==> changes == Changes(old(delims).value, nd)
                                    && display.raw == if changes == [] then old(display.raw)
                                                      else ApplyChanges(Strip(old(display.raw)), changes))
    {
      changes := [];
      var r := NewDelims(st);
      if r.MissingKey? {
        display.DisplayText("fetchSettings: ", "'" + r.key + "'");
        return;
      }
      if delims.None? {
        delims := Some(r.delims);
      } else {
        changes := ChangeDelims(r.delims);
      }
    }

    /** `updateModels`: choose the model; a failed choice leaves it as it was. */
    method UpdateModels(models: seq<string>, st: map<string, Value>) returns (ok: bool)
      modifies this
      ensures ok <==> ChooseModel(models, st).Some?
      ensures ok ==> model == ChooseModel(models, st).value && model in models
      ensures !ok ==> model == old(model)
      ensures delims == old(delims)
    {
      var choice := ChooseModel(models, st);
      if choice.None? {
        return false;
      }
      model := choice.value;
      ok := true;
    }
  }
}
