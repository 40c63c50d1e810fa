/**
 * The chat-history controller: saving a transcript with its hidden system
 * section, loading it back, and keeping the list of chat names unique.
 *
 * The history store is a snapshot map from file paths to contents; every
 * signal the controller emits and every file effect it performs becomes one
 * event of the trace its methods return.
 */
module ChatHandler {
  import opened Wrappers
  import opened Text
  import opened Transcript

  // ---------------------------------------------------------------------
  // The hidden system section
  // ---------------------------------------------------------------------

  /** The system section written in front of a saved chat. */
  function HiddenSection(sysPrompt: string, d: Delims): (r: string)
    ensures StartsWith(r, d.system) && |r| > |d.system|
  {
    assert (d.system + " " + sysPrompt + "\n\n")[..|d.system|] == d.system;
    d.system + " " + sysPrompt + "\n\n"
  }

  /** `addHiddenPromptIfNeeded`: the text unchanged, or the hidden section followed by the text. */
  function AddHiddenPromptIfNeeded(text: string, enable: bool, sysPrompt: string, d: Delims): (r: string)
    ensures text == "" ==> r == ""
    ensures r == text || r == HiddenSection(sysPrompt, d) + text
  {
    if text == "" then ""
    else
      var split := SplitText(text, d);
      if |split| > 0 && !StartsWith(split[0], d.system) && Strip(sysPrompt) != "" && enable
      then HiddenSection(sysPrompt, d) + text
      else text
  }

  /** The first marker of the text, as it is written there. */
  function FirstMarker(text: string, d: Delims): (r: Option<string>)
    ensures r.Some? ==> IsMarker(r.value, d, true)
  {
    match NextMatch(text, 0, d, true)
    case None => None
    case Some(n) => MatchIsMarker(text, n, d, true); Some(text[n..n + MarkerLen(text, n, d, true).value])
  }

  /** The pieces of `splitText` begin with the first marker of the text. */
  lemma {:induction false} SplitTextStartsWithFirstMarker(text: string, d: Delims)
    ensures SplitText(text, d) == [] <==> FirstMarker(text, d).None?
    ensures SplitText(text, d) != [] ==> SplitText(text, d)[0] == FirstMarker(text, d).value
  {
    match NextMatch(text, 0, d, true)
    case None =>
    case Some(n) => PiecesFromUnfold(text, n, d, true);
  }

  /**
   * The hidden section is added exactly when the text has a marker, its first
   * marker does not start with the system marker, the system prompt is not
   * blank, and the prompt is enabled.
   */
  lemma {:induction false} AddHiddenPromptWhen(text: string, enable: bool, sysPrompt: string, d: Delims)
    ensures AddHiddenPromptIfNeeded(text, enable, sysPrompt, d) == HiddenSection(sysPrompt, d) + text
            <==> (FirstMarker(text, d).Some? && !StartsWith(FirstMarker(text, d).value, d.system)
                  && Strip(sysPrompt) != "" && enable)
  {
    SplitTextStartsWithFirstMarker(text, d);
    if FirstMarker(text, d).Some? {
      assert text != "";
    }
    assert |HiddenSection(sysPrompt, d) + text| > |text|;
  }

  /** The pieces of a text that starts with the system marker begin with exactly that marker. */
  lemma {:induction false} SplitOfSystemStart(s: string, d: Delims)
    requires WellFormed(d) && StartsWith(s, d.system)
    ensures |SplitText(s, d)| >= 2 && SplitText(s, d)[0] == d.system
  {
    SystemStart(s, d, true);
    SplitTextOfMarkerStart(s, d);
    PiecesFromUnfold(s, 0, d, true);
    assert s[0..|d.system|] == d.system;
  }

  /** Saving twice adds the hidden section once: after the first time the text starts with the system marker. */
  lemma {:induction false} AddHiddenPromptIdempotent(text: string, enable: bool, sysPrompt: string, d: Delims)
    requires WellFormed(d)
    ensures AddHiddenPromptIfNeeded(AddHiddenPromptIfNeeded(text, enable, sysPrompt, d), enable, sysPrompt, d)
            == AddHiddenPromptIfNeeded(text, enable, sysPrompt, d)
  {
    var r := AddHiddenPromptIfNeeded(text, enable, sysPrompt, d);
    if r != text {
      var h := HiddenSection(sysPrompt, d);
      assert (h + text)[..|d.system|] == h[..|d.system|];
      SplitOfSystemStart(r, d);
    }
  }

  /** What `loadChat` shows for a loaded text: the text without its system section when it is the hidden one. */
  function DisplayOnLoad(text: string, enable: bool, hidePrompt: bool, sysPrompt: string, d: Delims): string {
    var split := SplitText(text, d);
    if |split| >= 2 && StartsWith(split[0], d.system) && Strip(sysPrompt) != ""
       && Strip(split[1]) == Strip(sysPrompt) && enable && hidePrompt
    then Concat(split[2..])
    else text
  }

  /** Loading shows the text as stored, or the text with everything up to the end of its first section cut off. */
  lemma {:induction false} DisplayOnLoadDropsFirstSection(text: string, enable: bool, hidePrompt: bool, sysPrompt: string, d: Delims)
    ensures var r := DisplayOnLoad(text, enable, hidePrompt, sysPrompt, d);
            var split := SplitText(text, d);
            r == text || (|split| >= 2 && text == SplitAll(text, d, true)[0] + split[0] + split[1] + r)
    ensures !(enable && hidePrompt) || Strip(sysPrompt) == "" ==> DisplayOnLoad(text, enable, hidePrompt, sysPrompt, d) == text
  {
    var split := SplitText(text, d);
    var shown := DisplayOnLoad(text, enable, hidePrompt, sysPrompt, d);
    if shown != text {
      assert |split| >= 2 && shown == Concat(split[2..]);
      SplitTextJoin(text, d);
      JoinAfterTwo(SplitAll(text, d, true)[0], split, text);
    }
  }

  lemma {:induction false} JoinAfterTwo(lead: string, pieces: seq<string>, text: string)
    requires |pieces| >= 2 && lead + Concat(pieces) == text
    ensures text == lead + pieces[0] + pieces[1] + Concat(pieces[2..])
  {
    ConcatFirstTwo(pieces);
  }

  lemma {:induction false} NoColonInSection(r: string, sysPrompt: string)
    requires r == " " + sysPrompt + "\n\n" && forall k :: 0 <= k < |sysPrompt| ==> sysPrompt[k] != ':'
    ensures forall k :: 0 <= k < |r| ==> r[k] != ':'
    ensures r[|r| - 1] == '\n'
  {
    forall k | 0 <= k < |r| ensures r[k] != ':' {
      if 1 <= k < 1 + |sysPrompt| {
        assert r[k] == sysPrompt[k - 1];
      }
    }
  }

  /** No marker starts inside a colon-free section that ends in a line break. */
  lemma {:induction false} NoMatchInSection(sd: string, sec: string, text: string, d: Delims)
    requires WellFormed(d) && |sec| > 0 && sec[|sec| - 1] == '\n'
    requires forall k :: 0 <= k < |sec| ==> sec[k] != ':'
    ensures forall j :: |sd| <= j < |sd| + |sec| ==> MarkerLen(sd + sec + text, j, d, true).None?
  {
    var s := sd + sec + text;
    var q := |sd| + |sec|;
    forall k | |sd| <= k < q ensures s[k] != ':' {
      assert s[k] == sec[k - |sd|];
    }
    assert s[q - 1] == sec[|sec| - 1];
    NoMarkerInColonFreeLine(s, |sd|, q, d, true);
  }

  lemma {:induction false} MatchAfterSection(sd: string, sec: string, text: string, d: Delims)
    requires |text| > 0 && MarkerLen(text, 0, d, true).Some?
    ensures MarkerLen(sd + sec + text, |sd| + |sec|, d, true).Some?
  {
    MarkerLenShift(sd + sec, text, 0, d, true);
  }

  /** After the system marker and a colon-free section ending in a line break, the next match is the text's own first. */
  lemma {:induction false} NextMatchAfterSection(sd: string, sec: string, text: string, d: Delims)
    requires WellFormed(d) && |sec| > 0 && sec[|sec| - 1] == '\n'
    requires forall k :: 0 <= k < |sec| ==> sec[k] != ':'
    requires |text| > 0 && MarkerLen(text, 0, d, true).Some?
    ensures NextMatch(sd + sec + text, |sd|, d, true) == Some(|sd| + |sec|)
  {
    var s := sd + sec + text;
    NoMatchInSection(sd, sec, text, d);
    MatchAfterSection(sd, sec, text, d);
    assert MarkerLen(s, |sd| + |sec|, d, true).Some?;
    assert forall j :: |sd| <= j < |sd| + |sec| ==> MarkerLen(s, j, d, true).None?;
    NextMatchIs(s, |sd|, |sd| + |sec|, d, true);
  }

  /** A text behind the system marker and such a section splits into the marker, the section, and pieces joining to the text. */
  lemma {:induction false} SplitAfterSection(sec: string, text: string, d: Delims)
    requires WellFormed(d) && |sec| > 0 && sec[|sec| - 1] == '\n'
    requires forall k :: 0 <= k < |sec| ==> sec[k] != ':'
    requires |text| > 0 && MarkerLen(text, 0, d, true).Some?
    ensures var split := SplitText(d.system + sec + text, d);
            |split| >= 2 && split[0] == d.system && split[1] == sec && Concat(split[2..]) == text
  {
    var sd := d.system;
    var s := sd + sec + text;
    var q := |sd| + |sec|;
    assert s[..|sd|] == sd;
    SystemStart(s, d, true);
    SplitTextOfMarkerStart(s, d);
    NextMatchAfterSection(sd, sec, text, d);
    PiecesFromUnfold(s, 0, d, true);
    var split := SplitText(s, d);
    assert split == [s[0..|sd|], s[|sd|..q]] + PiecesFrom(s, q, d, true);
    assert s[0..|sd|] == sd;
    assert s[|sd|..q] == sec;
    assert split[2..] == PiecesFrom(s, q, d, true);
    PiecesFromConcat(s, q, d, true);
    assert s[q..] == text;
  }

  /**
   * Round trip of persistence: a chat saved with the hidden section and loaded
   * with the prompt enabled and hidden shows exactly the chat that was saved.
   * The chat starts with a marker other than the system one, and the system
   * prompt is not blank and holds no colon (so that no marker starts inside it).
   */
  lemma {:induction false} SaveLoadRoundTrip(text: string, sysPrompt: string, d: Delims)
    requires WellFormed(d)
    requires |text| > 0 && MarkerLen(text, 0, d, true).Some?
    requires !StartsWith(text[..MarkerLen(text, 0, d, true).value], d.system)
    requires Strip(sysPrompt) != "" && forall k :: 0 <= k < |sysPrompt| ==> sysPrompt[k] != ':'
    ensures DisplayOnLoad(AddHiddenPromptIfNeeded(text, true, sysPrompt, d), true, true, sysPrompt, d) == text
  {
    var sec := " " + sysPrompt + "\n\n";
    SavedWithSection(text, sysPrompt, d);
    NoColonInSection(sec, sysPrompt);
    SplitAfterSection(sec, text, d);
    HiddenPromptMatches(sysPrompt);
    assert StartsWith(d.system, d.system);
  }

  /** A chat that starts with a non-system marker is saved with the hidden section in front. */
  lemma {:induction false} SavedWithSection(text: string, sysPrompt: string, d: Delims)
    requires |text| > 0 && MarkerLen(text, 0, d, true).Some?
    requires !StartsWith(text[..MarkerLen(text, 0, d, true).value], d.system)
    requires Strip(sysPrompt) != ""
    ensures AddHiddenPromptIfNeeded(text, true, sysPrompt, d) == d.system + (" " + sysPrompt + "\n\n") + text
  {
    NextMatchIs(text, 0, 0, d, true);
    assert FirstMarker(text, d) == Some(text[..MarkerLen(text, 0, d, true).value]);
    AddHiddenPromptWhen(text, true, sysPrompt, d);
  }

  lemma {:induction false} HiddenPromptMatches(sysPrompt: string)
    ensures Strip(" " + sysPrompt + "\n\n") == Strip(sysPrompt)
  {
    assert AllSpace(" ") && AllSpace("\n\n");
    StripOfPadded(" ", sysPrompt, "\n\n");
  }

  // ---------------------------------------------------------------------
  // Chat names
  // ---------------------------------------------------------------------

  /** Python's `list[i]` index for a possibly negative `i`, or `None` where it raises `IndexError`. */
  function PyIndex(i: int, n: nat): (r: Option<nat>)
    ensures r.Some? ==> r.value < n && (r.value == i || r.value == n + i)
    ensures r.None? <==> (i >= n || i < -(n as int))
  {
    if 0 <= i < n then Some(i) else if -(n as int) <= i < 0 then Some(n + i) else None
  }

  /** The names at every position other than `current` (compared as a raw position, as the source does). */
  function Others(names: seq<string>, current: int): (r: seq<string>)
    ensures forall x :: x in r ==> x in names
    ensures forall j :: 0 <= j < |names| && j != current ==> names[j] in r
    decreases |names|
  {
    if names == [] then []
    else
      var rest := Others(names[..|names| - 1], current);
      if |names| - 1 != current then rest + [names[|names| - 1]] else rest
  }

  /** A blank name, or one holding `:` or `\`, is replaced by `"default name"`. */
  function SanitizedName(name: string): string {
    if Strip(name) == "" || ':' in name || '\\' in name then "default name" else name
  }

  /** A name `saveChat` keeps: not blank, and neither `:` nor `\\` anywhere in it. */
  predicate CleanName(name: string) {
    Strip(name) != "" && ':' !in name && '\\' !in name
  }

  lemma {:induction false} DefaultNameIsClean()
    ensures CleanName("default name")
  {
    var dn := "default name";
    assert StripLeft(dn) == dn;
    assert StripRight(dn) == dn;
  }

  /** A sanitized name is never blank and holds neither `:` nor `\\`; a clean name is kept, any other replaced. */
  lemma {:induction false} SanitizedNameIsClean(name: string)
    ensures CleanName(SanitizedName(name))
    ensures CleanName(name) <==> SanitizedName(name) == name
  {
    DefaultNameIsClean();
  }

  /** The name tried at attempt `k`: `f"{base}{pre}{k}{post}"`. */
  function Candidate(base: string, pre: string, k: nat, post: string): (r: string)
    ensures |r| > |base|
  {
    base + pre + Dec(k) + post
  }

  lemma {:induction false} CandidateBound(base: string, pre: string, k: nat, post: string, all: seq<string>)
    requires Candidate(base, pre, k, post) in all
    ensures k < Pow10(MaxLen(all))
  {
    if k >= Pow10(MaxLen(all)) {
      DecLengthBound(k, MaxLen(all));
      LongerIsAbsent(all, Candidate(base, pre, k, post));
      assert false;
    }
  }

  /**
   * The renaming loop of `saveChat` and `newChat`: while the name is taken (in
   * `guard`), count up and take the first numbered candidate that is in no list
   * entry at all. It ends, with a name not in `guard`: the base itself when
   * free, otherwise the candidate with the smallest number not in `all`.
   */
  method Disambiguate(base: string, pre: string, post: string, guard: seq<string>, all: seq<string>)
      returns (name: string, i: nat)
    requires forall x :: x in guard ==> x in all
    ensures name !in guard
    ensures i == 0 <==> base !in guard
    ensures i == 0 ==> name == base
    ensures i > 0 ==> name == Candidate(base, pre, i, post) && name !in all
    ensures forall j :: 1 <= j < i ==> Candidate(base, pre, j, post) in all
  {
    name := base;
    i := 0;
    while name in guard
      invariant i <= Pow10(MaxLen(all))
      invariant i > 0 ==> base in guard
      invariant name != base ==> i > 0 && name == Candidate(base, pre, i, post) && name !in all
      invariant name == base && i > 0 ==> Candidate(base, pre, i, post) in all
      invariant forall j :: 1 <= j < i ==> Candidate(base, pre, j, post) in all
      decreases Pow10(MaxLen(all)) - i
    {
      if i > 0 {
        CandidateBound(base, pre, i, post, all);
      }
      i := i + 1;
      if Candidate(name, pre, i, post) !in all {
        name := Candidate(name, pre, i, post);
      }
    }
  }

  /** Python's `list.index(x)`: the first position holding `x`, or `None` for `ValueError`. */
  function IndexOf(names: seq<string>, x: string): (r: Option<nat>)
    ensures r.None? <==> x !in names
    ensures r.Some? ==> r.value < |names| && names[r.value] == x && x !in names[..r.value]
  {
    if names == [] then None
    else if names[0] == x then Some(0)
    else
      match IndexOf(names[1..], x)
      case None => None
      case Some(k) => (assert names[..k + 1] == [names[0]] + names[1..][..k]; Some(k + 1))
  }

  /** The list the chat names live in, which the controller updates in place. */
  class NameList {
    var items: seq<string>

    constructor(items0: seq<string>)
      ensures items == items0
    {
      items := items0;
    }
  }

  // ---------------------------------------------------------------------
  // The controller and its event trace
  // ---------------------------------------------------------------------

  /** A history file: a chat's temporary snapshot or its permanent file. */
  datatype Path = Temp(chat: string) | Perm(chat: string)

  /** A signal the controller emits, or a file effect it performs. */
  datatype HandlerEvent =
    | Display(text: string)
    | Recolour
    | Clear
    | UpdateChatNames(names: seq<string>, current: string, isNew: bool)
    | EndGeneration
    | ChangeCurrentChatName(name: string)
    | WriteFile(path: Path, contents: string)
    | RenameFile(source: Path, target: Path)
    | DeleteFile(path: Path)
    | Failed(operation: string)

  /** `saveTemp`: the snapshot of the chat being left, with its hidden section, when there is one. */
  function SaveTempEvents(prevChat: Option<string>, fullChat: string, enable: bool, sysPrompt: string, d: Delims)
    : (r: seq<HandlerEvent>)
    ensures prevChat.None? <==> r == []
    ensures prevChat.Some? ==> r == [WriteFile(Temp(prevChat.value), AddHiddenPromptIfNeeded(fullChat, enable, sysPrompt, d))]
  {
    match prevChat
    case None => []
    case Some(p) => [WriteFile(Temp(p), AddHiddenPromptIfNeeded(fullChat, enable, sysPrompt, d))]
  }

  /** The file `loadChat` opens: the temporary snapshot unless `loadPerm`, else the permanent file, whichever exists first. */
  function FileToLoad(name: string, loadPerm: bool, store: map<Path, string>): (r: Option<Path>)
    ensures r.Some? ==> r.value in store && r.value.chat == name
    ensures r == Some(Perm(name)) ==> loadPerm || Temp(name) !in store
    ensures r.None? <==> (loadPerm || Temp(name) !in store) && Perm(name) !in store
  {
    if !loadPerm && Temp(name) in store then Some(Temp(name))
    else if Perm(name) in store then Some(Perm(name))
    else None
  }

  /** The events of reading the chosen file: the display is cleared and the loaded text shown. */
  function LoadedEvents(file: Option<Path>, store: map<Path, string>, enable: bool, hidePrompt: bool, sysPrompt: string, d: Delims)
    : seq<HandlerEvent>
    requires file.Some? ==> file.value in store
  {
    match file
    case None => []
    case Some(p) => [Clear, Display(DisplayOnLoad(store[p], enable, hidePrompt, sysPrompt, d))]
  }

  /** The events of `newChat` once the new name is chosen and the list updated. */
  function NewChatEvents(prompting: bool, save: bool, prevChat: Option<string>, fullText: string, sysPrompt: string,
                         names: seq<string>, name: string, enable: bool, hidePrompt: bool, d: Delims): seq<HandlerEvent>
  {
    (if prompting then [EndGeneration] else [])
    + (if save then SaveTempEvents(prevChat, fullText, enable, sysPrompt, d) else [])
    + [Clear, UpdateChatNames(names, name, true)]
    + (if enable && !hidePrompt then [Display(HiddenSection(sysPrompt, d))] else [])
    + [Display(d.user + " "), Recolour]
  }

  /** The opening events of `deleteChat`: the display is cleared and the chat's files are deleted. */
  function RemovalEvents(name: string, store: map<Path, string>): seq<HandlerEvent> {
    [Clear]
    + (if Perm(name) in store then [DeleteFile(Perm(name))] else [])
    + (if Temp(name) in store then [DeleteFile(Temp(name))] else [])
  }

  class Controller {
    /** The chat currently shown, whose snapshot is written when switching away. */
    var prevChat: Option<string>
    /** Set when the current chat's temporary snapshot has been deleted. */
    var deletingTemp: bool

    constructor(prev: Option<string>)
      ensures prevChat == prev && !deletingTemp
    {
      prevChat := prev;
      deletingTemp := false;
    }

    /**
     * `saveChat`: choose a unique name, rename or create the permanent file,
     * write the chat with its hidden section, refresh the snapshot and store the
     * name at `currentIndex`. A position outside the list raises `IndexError`.
     */
    method SaveChat(currentIndex: int, newName: string, names: NameList, fullChat: string, enable: bool,
                    sysPrompt: string, d: Delims, store: map<Path, string>)
        returns (events: seq<HandlerEvent>, ghost number: nat)
      modifies names
      ensures match PyIndex(currentIndex, |old(names.items)|)
        case None =>
          names.items == old(names.items) && events == [Failed("saveChat")]
        case Some(idx) =>
          |names.items| == |old(names.items)| &&
          var base := SanitizedName(newName);
          var name := names.items[idx];
          && names.items == old(names.items)[idx := name]
          && name !in Others(old(names.items), currentIndex)
          && (forall j :: 0 <= j < |names.items| && j != idx ==> names.items[j] != name)
          && (number == 0 <==> base !in Others(old(names.items), currentIndex))
          && (number == 0 ==> name == base)
          && (number > 0 ==> name == Candidate(base, " (", number, ")") && name !in old(names.items))
          && (forall j :: 1 <= j < number ==> Candidate(base, " (", j, ")") in old(names.items))
          && var toWrite := AddHiddenPromptIfNeeded(fullChat, enable, sysPrompt, d);
             var oldName := old(names.items)[idx];
             events == (if Perm(oldName) in store then [RenameFile(Perm(oldName), Perm(name))]
                        else [WriteFile(Perm(name), "")])
                       + [WriteFile(Perm(name), toWrite)]
                       + SaveTempEvents(prevChat, fullChat, enable, sysPrompt, d)
                       + [UpdateChatNames(names.items, name, false)]
    {
      var all := names.items;
      var base := SanitizedName(newName);
      var others := Others(all, currentIndex);
      var name, i := Disambiguate(base, " (", ")", others, all);
      number := i;
      var idx := PyIndex(currentIndex, |all|);
      if idx.None? {
        events := [Failed("saveChat")];
        return;
      }
      var oldName := all[idx.value];
      if Perm(oldName) in store {
        events := [RenameFile(Perm(oldName), Perm(name))];
      } else {
        events := [WriteFile(Perm(name), "")];
      }
      var toWrite := AddHiddenPromptIfNeeded(fullChat, enable, sysPrompt, d);
      events := events + [WriteFile(Perm(name), toWrite)];
      events := events + SaveTempEvents(prevChat, fullChat, enable, sysPrompt, d);
      names.items := all[idx.value := name];
      events := events + [UpdateChatNames(names.items, name, false)];
    }

    /**
     * `loadChat`: stop a running generation, snapshot the chat being left
     * (unless its snapshot was just deleted), then show the first existing file
     * of the selected chat and make it the current one.
     */
    method LoadChat(prompting: bool, fullChat: string, deletingTempNow: bool, names: seq<string>, currentIndex: int,
                    loadPerm: bool, enable: bool, hidePrompt: bool, sysPrompt: string, d: Delims, store: map<Path, string>)
        returns (events: seq<HandlerEvent>)
      modifies this
      ensures !deletingTemp
      ensures var before := (if prompting then [EndGeneration] else [])
                            + (if old(prevChat).Some? && !deletingTempNow
                               then SaveTempEvents(old(prevChat), fullChat, enable, sysPrompt, d) else []);
        match PyIndex(currentIndex, |names|)
        case None => prevChat == old(prevChat) && events == before + [Failed("loadChat")]
        case Some(idx) =>
          prevChat == Some(names[idx])
          && events == before + [ChangeCurrentChatName(names[idx])]
                       + LoadedEvents(FileToLoad(names[idx], loadPerm, store), store, enable, hidePrompt, sysPrompt, d)
                       + [Recolour]
    {
      events := if prompting then [EndGeneration] else [];
      if prevChat.Some? && !deletingTempNow {
        events := events + SaveTempEvents(prevChat, fullChat, enable, sysPrompt, d);
      }
      deletingTemp := false;
      var idx := PyIndex(currentIndex, |names|);
      if idx.None? {
        events := events + [Failed("loadChat")];
        return;
      }
      var name := names[idx.value];
      events := events + [ChangeCurrentChatName(name)];
      ghost var before := events;
      var paths := [Temp(name), Perm(name)];
      var i := 0;
      while i < |paths|
        invariant 0 <= i <= |paths|
        invariant events == before
        invariant i > 0 ==> loadPerm || Temp(name) !in store
        invariant i > 1 ==> Perm(name) !in store
      {
        if i == 0 && loadPerm {
          i := i + 1;
          continue;
        }
        if paths[i] in store {
          assert FileToLoad(name, loadPerm, store) == Some(paths[i]);
          events := events + [Clear, Display(DisplayOnLoad(store[paths[i]], enable, hidePrompt, sysPrompt, d))];
          break;
        }
        i := i + 1;
      }
      prevChat := Some(name);
      events := events + [Recolour];
    }

    /**
     * `newChat`: stop a running generation, optionally snapshot the current
     * chat, then put a fresh name at the front of the list, clear the display
     * and seed it with the (visible) system section and the user marker.
     */
    method NewChat(prompting: bool, fullText: string, sysPrompt: string, names: NameList, save: bool,
                   enable: bool, hidePrompt: bool, d: Delims)
        returns (events: seq<HandlerEvent>, ghost number: nat)
      modifies this, names
      ensures |names.items| == |old(names.items)| + 1 && names.items[1..] == old(names.items)
      ensures var name := names.items[0];
              && name !in old(names.items)
              && (number == 0 <==> "new chat" !in old(names.items))
              && (number == 0 ==> name == "new chat")
              && (number > 0 ==> name == Candidate("new chat", " ", number, ""))
              && (forall j :: 1 <= j < number ==> Candidate("new chat", " ", j, "") in old(names.items))
              && prevChat == Some(name)
              && events == NewChatEvents(prompting, save, old(prevChat), fullText, sysPrompt, names.items, name,
                                         enable, hidePrompt, d)
      ensures deletingTemp == old(deletingTemp)
    {
      events := if prompting then [EndGeneration] else [];
      if save {
        events := events + SaveTempEvents(prevChat, fullText, enable, sysPrompt, d);
      }
      var all := names.items;
      var name, i := Disambiguate("new chat", " ", "", all, all);
      number := i;
      names.items := [name] + all;
      events := events + [Clear, UpdateChatNames(names.items, name, true)];
      if enable && !hidePrompt {
        events := events + [Display(HiddenSection(sysPrompt, d))];
      }
      events := events + [Display(d.user + " "), Recolour];
      prevChat := Some(name);
    }

    /**
     * `deleteChat`: remove the chat's files and its name. While a generation
     * runs the source calls the end-generation signal object itself, which
     * raises, so only the failure is reported. A name that is not in the list
     * fails after the files are gone; an emptied list gets a new chat.
     */
    method DeleteChat(prompting: bool, names: NameList, nameToDelete: string, fullText: string, sysPrompt: string,
                      enable: bool, hidePrompt: bool, d: Delims, store: map<Path, string>)
        returns (events: seq<HandlerEvent>)
      modifies this, names
      ensures prompting ==> events == [Failed("deleteChat")] && names.items == old(names.items)
                            && prevChat == old(prevChat) && deletingTemp == old(deletingTemp)
      ensures !prompting ==> deletingTemp == (old(deletingTemp) || Temp(nameToDelete) in store)
      ensures !prompting && nameToDelete !in old(names.items) ==>
                names.items == old(names.items) && prevChat == old(prevChat)
                && events == RemovalEvents(nameToDelete, store) + [Failed("deleteChat")]
      ensures !prompting && nameToDelete in old(names.items) ==>
                var k := IndexOf(old(names.items), nameToDelete).value;
                var remaining := old(names.items)[..k] + old(names.items)[k + 1..];
                if remaining != [] then
                  names.items == remaining && prevChat == old(prevChat)
                  && events == RemovalEvents(nameToDelete, store) + [UpdateChatNames(remaining, "", false)]
                else
                  names.items == ["new chat"] && prevChat == Some("new chat")
                  && events == RemovalEvents(nameToDelete, store)
                               + NewChatEvents(false, true, old(prevChat), fullText, sysPrompt, ["new chat"],
                                               "new chat", enable, hidePrompt, d)
                               + [UpdateChatNames(["new chat"], "", false)]
    {
      if prompting {
        events := [Failed("deleteChat")];
        return;
      }
      events := [Clear];
      if Perm(nameToDelete) in store {
        events := events + [DeleteFile(Perm(nameToDelete))];
      }
      if Temp(nameToDelete) in store {
        deletingTemp := true;
        events := events + [DeleteFile(Temp(nameToDelete))];
      }
      assert events == RemovalEvents(nameToDelete, store);
      var index := IndexOf(names.items, nameToDelete);
      if index.None? {
        events := events + [Failed("deleteChat")];
        return;
      }
      var k := index.value;
      names.items := names.items[..k] + names.items[k + 1..];
      if |names.items| == 0 {
        var created, _ := NewChat(prompting, fullText, sysPrompt, names, true, enable, hidePrompt, d);
        assert names.items == ["new chat"];
        events := events + created;
      }
      events := events + [UpdateChatNames(names.items, "", false)];
    }
  }
}
