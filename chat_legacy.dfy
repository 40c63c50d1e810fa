/**
 * The older chat window, which does everything in one class: it builds the
 * history from the display itself (replacing a quoted image path by
 * "[image]"), keeps the hidden system prompt, loads saved chats, names new
 * ones, and shows the worker's stream through the same chunk protocol.
 *
 * The window's display is its plain text `raw`; files are given as their
 * contents, and the model's answer as a sequence of chunks.
 */
module ChatLegacy {
  import opened Wrappers
  import opened Text
  import opened Transcript
  import opened PromptWorker
  import ChatHandler

  // ---------------------------------------------------------------------
  // The image search `re.search(r"\"[A-Z]:[\\/].+\"", content)`
  // ---------------------------------------------------------------------

  /** The end of the line from position `i` on: the first line break at or after it, or the end of the text. */
  function LineEnd(s: string, i: nat): (r: nat)
    requires i <= |s|
    ensures i <= r <= |s| && (r < |s| ==> s[r] == '\n')
    ensures forall k :: i <= k < r ==> s[k] != '\n'
    decreases |s| - i
  {
    if i == |s| || s[i] == '\n' then i else LineEnd(s, i + 1)
  }

  /** The last quote in `s[lo..hi]`. */
  function LastQuote(s: string, lo: nat, hi: nat): (r: Option<nat>)
    requires lo <= hi <= |s|
    ensures r.Some? ==> lo <= r.value < hi && s[r.value] == '"' && forall k :: r.value < k < hi ==> s[k] != '"'
    ensures r.None? ==> forall k :: lo <= k < hi ==> s[k] != '"'
    decreases hi
  {
    if hi == lo then None
    else if s[hi - 1] == '"' then Some(hi - 1)
    else LastQuote(s, lo, hi - 1)
  }

  /** The fixed head of the pattern at `p`: a quote, a capital drive letter, a colon and a slash of either kind. */
  predicate ImageHead(s: string, p: nat) {
    p + 4 <= |s| && s[p] == '"' && 'A' <= s[p + 1] <= 'Z' && s[p + 2] == ':' && (s[p + 3] == '\\' || s[p + 3] == '/')
  }

  /**
   * The end of a match starting at `p`: the greedy `.+` takes at least one
   * character and cannot cross a line break, so the match closes at the last
   * quote of the line after the head.
   */
  function ImageEnd(s: string, p: nat): (r: Option<nat>)
    requires p <= |s|
    ensures r.Some? ==> ImageHead(s, p) && p + 6 <= r.value <= |s| && s[r.value - 1] == '"'
  {
    if ImageHead(s, p) && p + 5 <= LineEnd(s, p + 4) then
      match LastQuote(s, p + 5, LineEnd(s, p + 4))
      case None => None
      case Some(q) => Some(q + 1)
    else None
  }

  /** The leftmost position from `p` on where a match starts. */
  function FirstImage(s: string, p: nat): (r: Option<nat>)
    requires p <= |s|
    ensures r.Some? ==> p <= r.value <= |s| && ImageEnd(s, r.value).Some?
    ensures r.Some? ==> forall q :: p <= q < r.value ==> ImageEnd(s, q).None?
    ensures r.None? ==> forall q :: p <= q <= |s| ==> ImageEnd(s, q).None?
    decreases |s| - p
  {
    if ImageEnd(s, p).Some? then Some(p)
    else if p == |s| then None
    else FirstImage(s, p + 1)
  }

  /** `foundImage[0]`: the text of the leftmost match, a quoted path that starts with a drive letter. */
  function FoundImage(content: string): (r: Option<string>)
    ensures r.Some? ==> Contains(content, r.value) && |r.value| >= 6
                        && r.value[0] == '"' && 'A' <= r.value[1] <= 'Z' && r.value[|r.value| - 1] == '"'
  {
    match FirstImage(content, 0)
    case None => None
    case Some(p) =>
      var m := content[p..ImageEnd(content, p).value];
      ContainsAt(content, m, p);
      Some(m)
  }

  // ---------------------------------------------------------------------
  // The history `prompt` builds
  // ---------------------------------------------------------------------

  /**
   * The entry of one (marker, content) pair: a found path is replaced by
   * "[image]" everywhere in the content and, without its quotes, becomes the
   * entry's only image; the content is stripped.
   */
  function LegacyEntry(marker: string, content: string, d: Delims): Entry {
    match FoundImage(content)
    case None => Entry(RoleOf(marker, d), Strip(content), None)
    case Some(m) =>
      var path := StripChar(m, '"');
      Entry(RoleOf(marker, d), Strip(ReplaceAll(content, m, "[image]")), if path != "" then Some([path]) else None)
  }

  /**
   * An entry carries an image exactly when the search finds a path; the image
   * is the path without its quotes, starting at the drive letter, and the
   * content then holds "[image]" where the path was.
   */
  lemma {:induction false} LegacyEntryImage(marker: string, content: string, d: Delims)
    ensures var e := LegacyEntry(marker, content, d);
      && e.role == RoleOf(marker, d)
      && (e.images.Some? <==> FoundImage(content).Some?)
      && (FoundImage(content).None? ==> e.content == Strip(content))
      && (FoundImage(content).Some? ==>
            var m := FoundImage(content).value;
            && e.images == Some([StripChar(m, '"')])
            && StripChar(m, '"')[0] == m[1]
            && Contains(e.content, "[image]"))
  {
    match FoundImage(content)
    case None =>
    case Some(m) =>
      assert StripChar(m, '"') == StripChar(m[1..], '"');
      StripCharKeepsHead(m[1..], '"');
      ReplaceInserts(content, m, "[image]");
      StripKeepsInner(ReplaceAll(content, m, "[image]"), "[image]");
  }

  function LegacyMaker(d: Delims): EntryMaker {
    (marker: string, content: string) => LegacyEntry(marker, content, d)
  }

  /** `hiddenDefaultPrompt` as its truthiness test reads it: the prompt, or "" for `None`. */
  function HiddenText(hidden: Option<string>): string {
    if hidden.Some? then hidden.value else ""
  }

  /** The history `prompt` hands to the worker, for a split with at least one pair. */
  function LegacyHistory(split: seq<string>, d: Delims, hidden: Option<string>): seq<Entry>
    requires |split| >= 2
  {
    WithHiddenPrompt(EntriesUpTo(split, PairCount(|split|), LegacyMaker(d)), HiddenText(hidden), d)
  }

  /** The history has one entry per pair, in order, behind at most one extra entry. */
  lemma {:induction false} LegacyHistoryEntries(split: seq<string>, d: Delims, hidden: Option<string>, k: nat)
    requires |split| >= 2 && k < PairCount(|split|)
    ensures var h := LegacyHistory(split, d, hidden);
      && (|h| == PairCount(|split|) || |h| == PairCount(|split|) + 1)
      && h[|h| - PairCount(|split|) + k] == LegacyEntry(split[2 * k], split[2 * k + 1], d)
  {
    var mk := LegacyMaker(d);
    HiddenHistoryEntries(split, mk, HiddenText(hidden), d, k);
    assert mk(split[2 * k], split[2 * k + 1]) == LegacyEntry(split[2 * k], split[2 * k + 1], d);
  }

  /**
   * The extra entry is a system entry with the hidden prompt, there exactly
   * when the prompt is set and the first pair's role is not named like the
   * system marker.
   */
  lemma {:induction false} LegacyHiddenEntry(split: seq<string>, d: Delims, hidden: Option<string>)
    requires |split| >= 2
    ensures var h := LegacyHistory(split, d, hidden);
            var role := RoleOf(split[0], d);
      && (|h| > PairCount(|split|) <==>
            HiddenText(hidden) != "" && !(role.Some? && RoleName(role.value) == DropLast(d.system, 1)))
      && (|h| > PairCount(|split|) ==> h[0] == Entry(Some(System), HiddenText(hidden), None))
  {
    var mk := LegacyMaker(d);
    HiddenHistoryEntries(split, mk, HiddenText(hidden), d, 0);
    var first := LegacyEntry(split[0], split[1], d);
    assert mk(split[0], split[1]) == first;
    LegacyEntryImage(split[0], split[1], d);
  }

  /** The same for any entry map. */
  lemma {:induction false} HiddenHistoryEntries(split: seq<string>, mk: EntryMaker, hidden: string, d: Delims, k: nat)
    requires |split| >= 2 && k < PairCount(|split|)
    ensures var p := PairCount(|split|);
            var h := WithHiddenPrompt(EntriesUpTo(split, p, mk), hidden, d);
            var first := mk(split[0], split[1]);
      && (|h| == p || |h| == p + 1)
      && h[|h| - p + k] == mk(split[2 * k], split[2 * k + 1])
      && (|h| > p <==> hidden != "" && !(first.role.Some? && RoleName(first.role.value) == DropLast(d.system, 1)))
      && (|h| > p ==> h[0] == Entry(Some(System), hidden, None))
  {
    var p := PairCount(|split|);
    EntriesUpToIndex(split, p, mk, k);
    EntriesUpToIndex(split, p, mk, 0);
  }

  /**
   * The pair loop of `prompt`: one entry per (marker, content) pair, an
   * unpaired last piece skipped; `mk` builds an entry from its pair.
   */
  method BuildHistory(split: seq<string>, mk: EntryMaker) returns (history: seq<Entry>)
    ensures history == EntriesUpTo(split, PairCount(|split|), mk)
  {
    history := [];
    var counter := 0;
    while counter < |split|
      invariant 2 * |history| <= |split|
      invariant history == EntriesUpTo(split, |history|, mk)
      invariant counter == 2 * |history| || (|split| == 2 * |history| + 1 && counter == |split| + 1)
    {
      if counter + 1 < |split| {
        history := history + [mk(split[counter], split[counter + 1])];
      }
      counter := counter + 2;
    }
  }


  // ---------------------------------------------------------------------
  // The hidden prompt in saved chats
  // ---------------------------------------------------------------------

  /** `addHiddenPromptIfNeeded`: the hidden section goes in front unless the first marker is the system one. */
  function LegacyAddHidden(text: string, hidden: Option<string>, d: Delims): (r: string)
    ensures text == "" ==> r == ""
    ensures r == text || r == ChatHandler.HiddenSection(HiddenText(hidden), d) + text
  {
    if text == "" then ""
    else
      var split := SplitText(text, d);
      if |split| > 0 && !StartsWith(split[0], d.system) && HiddenText(hidden) != ""
      then ChatHandler.HiddenSection(HiddenText(hidden), d) + text
      else text
  }

  /**
   * The older save agrees with the newer one for a prompt that is not blank;
   * without a prompt it writes the text as it is.
   */
  lemma {:induction false} LegacyAddHiddenAgrees(text: string, hidden: Option<string>, d: Delims)
    ensures HiddenText(hidden) == "" ==> LegacyAddHidden(text, hidden, d) == text
    ensures Strip(HiddenText(hidden)) != "" ==>
              LegacyAddHidden(text, hidden, d) == ChatHandler.AddHiddenPromptIfNeeded(text, true, HiddenText(hidden), d)
  {
    if Strip(HiddenText(hidden)) != "" {
      assert HiddenText(hidden) != "";
    }
  }

  /** Saving twice adds the hidden section once. */
  lemma {:induction false} LegacyAddHiddenIdempotent(text: string, hidden: Option<string>, d: Delims)
    requires WellFormed(d)
    ensures LegacyAddHidden(LegacyAddHidden(text, hidden, d), hidden, d) == LegacyAddHidden(text, hidden, d)
  {
    var r := LegacyAddHidden(text, hidden, d);
    if r != text {
      var h := ChatHandler.HiddenSection(HiddenText(hidden), d);
      assert (h + text)[..|d.system|] == h[..|d.system|];
      ChatHandler.SplitOfSystemStart(r, d);
    }
  }

  /**
   * `loadChat` as written: a text that opens with a system section while a
   * hidden prompt is kept shows without that section when it matches the
   * prompt, and shows nothing at all (`None`) when it does not.
   */
  function LegacyShownOnLoad(text: string, hidden: Option<string>, d: Delims): Option<string> {
    var split := SplitText(text, d);
    if |split| >= 2 && StartsWith(split[0], d.system) && hidden.Some? then
      if Strip(split[1]) == Strip(hidden.value) then Some(Concat(split[2..])) else None
    else Some(text)
  }

  /** The display `loadChat` evidently means: the whole text whenever the section is not the hidden prompt. */
  function LoadedView(text: string, hidden: Option<string>, d: Delims): string {
    var split := SplitText(text, d);
    if |split| >= 2 && StartsWith(split[0], d.system) && hidden.Some? && Strip(split[1]) == Strip(hidden.value)
    then Concat(split[2..])
    else text
  }

  /**
   * As written, a chat saved under one hidden prompt and loaded under another
   * (the prompt changed in the settings, say) is not shown at all, though the
   * display was cleared for it.
   */
  lemma {:induction false} LegacyLoadHidesOtherPrompt(text: string, saved: string, current: string, d: Delims)
    requires WellFormed(d)
    requires |text| > 0 && MarkerLen(text, 0, d, true).Some?
    requires !StartsWith(text[..MarkerLen(text, 0, d, true).value], d.system)
    requires saved != "" && forall k :: 0 <= k < |saved| ==> saved[k] != ':'
    requires Strip(saved) != Strip(current)
    ensures LegacyShownOnLoad(LegacyAddHidden(text, Some(saved), d), Some(current), d).None?
    ensures LoadedView(LegacyAddHidden(text, Some(saved), d), Some(current), d) == LegacyAddHidden(text, Some(saved), d)
  {
    var sec := " " + saved + "\n\n";
    LegacySavedWithSection(text, saved, d);
    ChatHandler.NoColonInSection(sec, saved);
    ChatHandler.SplitAfterSection(sec, text, d);
    ChatHandler.HiddenPromptMatches(saved);
    assert StartsWith(d.system, d.system);
  }

  /** Saved and loaded under the same hidden prompt, a chat shows exactly as it was, either way. */
  lemma {:induction false} LegacySaveLoadRoundTrip(text: string, prompt: string, d: Delims)
    requires WellFormed(d)
    requires |text| > 0 && MarkerLen(text, 0, d, true).Some?
    requires !StartsWith(text[..MarkerLen(text, 0, d, true).value], d.system)
    requires prompt != "" && forall k :: 0 <= k < |prompt| ==> prompt[k] != ':'
    ensures LegacyShownOnLoad(LegacyAddHidden(text, Some(prompt), d), Some(prompt), d) == Some(text)
    ensures LoadedView(LegacyAddHidden(text, Some(prompt), d), Some(prompt), d) == text
  {
    var sec := " " + prompt + "\n\n";
    LegacySavedWithSection(text, prompt, d);
    ChatHandler.NoColonInSection(sec, prompt);
    ChatHandler.SplitAfterSection(sec, text, d);
    ChatHandler.HiddenPromptMatches(prompt);
    assert StartsWith(d.system, d.system);
  }

  lemma {:induction false} LegacySavedWithSection(text: string, prompt: string, d: Delims)
    requires |text| > 0 && MarkerLen(text, 0, d, true).Some?
    requires !StartsWith(text[..MarkerLen(text, 0, d, true).value], d.system)
    requires prompt != ""
    ensures LegacyAddHidden(text, Some(prompt), d) == d.system + (" " + prompt + "\n\n") + text
  {
    NextMatchIs(text, 0, 0, d, true);
    ChatHandler.SplitTextStartsWithFirstMarker(text, d);
    assert ChatHandler.FirstMarker(text, d) == Some(text[..MarkerLen(text, 0, d, true).value]);
  }

  // ---------------------------------------------------------------------
  // Names of new chats
  // ---------------------------------------------------------------------

  /** The name `newChat` holds after `k` passes of its loop: each pass drops the last character and appends the pass number. */
  function LegacyNameAt(k: nat): string {
    if k == 0 then "new chat 1" else DropLast(LegacyNameAt(k - 1), 1) + Dec(k)
  }

  /** The names never get shorter than ten characters, and from the tenth pass on each pass adds one at least. */
  lemma {:induction false} LegacyNameLength(k: nat)
    ensures |LegacyNameAt(k)| >= 10
    ensures k >= 10 ==> |LegacyNameAt(k)| >= k + 1
  {
    if k > 0 {
      LegacyNameLength(k - 1);
      DecLengthTwo(k);
    }
  }

  /** Up to the tenth pass the names are "new chat 1" to "new chat 10", as meant. */
  lemma {:induction false} LegacyNameEarly(k: nat)
    requires 1 <= k <= 10
    ensures LegacyNameAt(k) == "new chat " + Dec(k)
  {
    if k > 1 {
      LegacyNameEarly(k - 1);
      DecLengthTwo(k - 1);
    }
  }

  /**
   * The eleventh pass appends "11" to "new chat 1", giving "new chat 111",
   * and no pass ever tries "new chat 11".
   */
  lemma {:induction false} LegacyNameSkipsEleven(k: nat)
    ensures LegacyNameAt(11) == "new chat 111"
    ensures LegacyNameAt(k) != "new chat 11"
  {
    LegacyNameEarly(10);
    assert Dec(10) == "10" && Dec(11) == "11";
    assert DropLast("new chat 10", 1) == "new chat 1";
    LegacyNameLength(k);
    if 1 <= k <= 10 {
      LegacyNameEarly(k);
      if Dec(k) == Dec(11) {
        DecInjective(k, 11);
      }
      assert ("new chat " + Dec(k))[9..] == Dec(k);
      assert "new chat 11"[9..] == Dec(11);
    } else if k >= 12 {
      LegacyNameLength(k);
    } else if k == 11 {
      assert |"new chat 111"| == 12;
    }
  }

  /**
   * The naming loop of `newChat` as written: it ends, with a name that is not
   * in the list, after trying the names of every earlier pass.
   */
  method LegacyNewName(names: seq<string>) returns (name: string, ghost passes: nat)
    ensures name !in names && name == LegacyNameAt(passes)
    ensures forall j :: 0 <= j < passes ==> LegacyNameAt(j) in names
  {
    name := "new chat 1";
    var i := 1;
    passes := 0;
    while name in names
      invariant i == passes + 1 && name == LegacyNameAt(passes)
      invariant forall j :: 0 <= j < passes ==> LegacyNameAt(j) in names
      decreases MaxLen(names) + 11 - i
    {
      LegacyNameLength(passes);
      assert |name| <= MaxLen(names);
      name := DropLast(name, 1) + Dec(i);
      i := i + 1;
      passes := passes + 1;
    }
  }

  /**
   * The naming loop as meant: try "new chat 1", "new chat 2", ... in turn and
   * take the first that is free, so "new chat 11" follows "new chat 10".
   */
  method NumberedName(names: seq<string>) returns (name: string, number: nat)
    ensures number >= 1 && name == ChatHandler.Candidate("new chat", " ", number, "") && name !in names
    ensures forall j :: 1 <= j < number ==> ChatHandler.Candidate("new chat", " ", j, "") in names
  {
    number := 1;
    name := ChatHandler.Candidate("new chat", " ", 1, "");
    while name in names
      invariant 1 <= number <= Pow10(MaxLen(names))
      invariant name == ChatHandler.Candidate("new chat", " ", number, "")
      invariant forall j :: 1 <= j < number ==> ChatHandler.Candidate("new chat", " ", j, "") in names
      decreases Pow10(MaxLen(names)) - number
    {
      ChatHandler.CandidateBound("new chat", " ", number, "", names);
      number := number + 1;
      name := ChatHandler.Candidate("new chat", " ", number, "");
    }
  }

  // ---------------------------------------------------------------------
  // The stream as the window shows it
  // ---------------------------------------------------------------------

  /** What `chunk` writes for one progress text: both sentinels open a new paragraph. */
  function ChunkText(chunk: string, d: Delims): string {
    if chunk == "assis12" then "\n\n" + d.assistant + " "
    else if chunk == "usr12" then "\n\n" + d.user + " "
    else chunk
  }

  /** What the window shows for one worker event: progress through `chunk`, a failure as its context and message. */
  function EventText(e: WorkerEvent, d: Delims, err: string): string {
    match e
    case Progress(t) => ChunkText(t, d)
    case Failed(ctx) => ctx + err
    case _ => ""
  }

  /** The text a sequence of worker events adds to the display. */
  function Rendered(events: seq<WorkerEvent>, d: Delims, err: string): string
    decreases |events|
  {
    if events == [] then "" else Rendered(events[..|events| - 1], d, err) + EventText(events[|events| - 1], d, err)
  }

  lemma {:induction false} RenderedAppend(a: seq<WorkerEvent>, b: seq<WorkerEvent>, d: Delims, err: string)
    ensures Rendered(a + b, d, err) == Rendered(a, d, err) + Rendered(b, d, err)
    decreases |b|
  {
    if b == [] {
      assert a + b == a;
    } else {
      var init, e := b[..|b| - 1], b[|b| - 1];
      assert a + b == (a + init) + [e];
      assert b == init + [e];
      RenderedAppend(a, init, d, err);
      RenderedSnoc(a + init, e, d, err);
      RenderedSnoc(init, e, d, err);
      AppendAssoc(Rendered(a, d, err), Rendered(init, d, err), EventText(e, d, err));
    }
  }

  lemma {:induction false} RenderedSingle(e: WorkerEvent, d: Delims, err: string)
    ensures Rendered([e], d, err) == EventText(e, d, err)
  {
    assert [e][..0] == [];
  }

  /** Chunks that are not sentinels are shown as they come. */
  lemma {:induction false} RenderedChunks(chunks: seq<string>, d: Delims, err: string)
    requires forall k :: 0 <= k < |chunks| ==> chunks[k] != "assis12" && chunks[k] != "usr12"
    ensures Rendered(ChunkEvents(chunks), d, err) == Concat(chunks)
    decreases |chunks|
  {
    if chunks != [] {
      var n := |chunks| - 1;
      assert ChunkEvents(chunks)[..n] == ChunkEvents(chunks[..n]);
      RenderedChunks(chunks[..n], d, err);
      assert chunks == chunks[..n] + [chunks[n]];
      ConcatAppend(chunks[..n], [chunks[n]]);
      ConcatSingle(chunks[n]);
    }
  }

  lemma {:induction false} RenderedSnoc(a: seq<WorkerEvent>, e: WorkerEvent, d: Delims, err: string)
    ensures Rendered(a + [e], d, err) == Rendered(a, d, err) + EventText(e, d, err)
  {
    assert (a + [e])[..|a|] == a;
  }

  /**
   * A streamed answer reaches the display as the assistant marker in a new
   * paragraph, the answer, and then a new user marker; a failed stream ends
   * in the error instead of the user marker.
   */
  lemma {:induction false} StreamShown(history: seq<Entry>, model: string, chunks: seq<string>, d: Delims, err: string)
    requires forall k :: 0 <= k < |chunks| ==> chunks[k] != "assis12" && chunks[k] != "usr12"
    ensures Rendered(ResponseTrace(history, model, chunks, false), d, err)
            == "\n\n" + d.assistant + " " + Concat(chunks) + "\n\n" + d.user + " "
    ensures Rendered(ResponseTrace(history, model, chunks, true), d, err)
            == "\n\n" + d.assistant + " " + Concat(chunks) + "toggleSettings: " + err
  {
    var head := [PrevModelSaved(model), Progress("assis12"), Request(model, history)];
    var shown := "\n\n" + d.assistant + " " + Concat(chunks);
    HeadShown(model, history, d, err);
    TailShown(d, err);
    RenderedChunks(chunks, d, err);
    TraceShown(head, chunks, [Progress("usr12"), PromptingCleared], d, err);
    AppendAssoc(shown, "\n\n" + d.user, " ");
    AppendAssoc(shown, "\n\n", d.user);
    TraceShown(head, chunks, [Failed("toggleSettings: ")], d, err);
    AppendAssoc(shown, "toggleSettings: ", err);
  }

  lemma {:induction false} TraceShown(head: seq<WorkerEvent>, chunks: seq<string>, tail: seq<WorkerEvent>, d: Delims, err: string)
    ensures Rendered(head + ChunkEvents(chunks) + tail + [Finished], d, err)
            == Rendered(head, d, err) + Rendered(ChunkEvents(chunks), d, err) + Rendered(tail, d, err)
  {
    RenderedSnoc(head + ChunkEvents(chunks) + tail, Finished, d, err);
    RenderedAppend(head + ChunkEvents(chunks), tail, d, err);
    RenderedAppend(head, ChunkEvents(chunks), d, err);
  }

  lemma {:induction false} HeadShown(model: string, history: seq<Entry>, d: Delims, err: string)
    ensures Rendered([PrevModelSaved(model), Progress("assis12"), Request(model, history)], d, err) == "\n\n" + d.assistant + " "
  {
    var e1, e2, e3 := PrevModelSaved(model), Progress("assis12"), Request(model, history);
    assert [e1, e2, e3] == [e1, e2] + [e3];
    RenderedSnoc([e1, e2], e3, d, err);
    assert [e1, e2] == [e1] + [e2];
    RenderedSnoc([e1], e2, d, err);
    RenderedSingle(e1, d, err);
  }

  lemma {:induction false} TailShown(d: Delims, err: string)
    ensures Rendered([Progress("usr12"), PromptingCleared], d, err) == "\n\n" + d.user + " "
    ensures Rendered([Failed("toggleSettings: ")], d, err) == "toggleSettings: " + err
  {
    assert [Progress("usr12"), PromptingCleared] == [Progress("usr12")] + [PromptingCleared];
    RenderedSnoc([Progress("usr12")], PromptingCleared, d, err);
    RenderedSingle(Progress("usr12"), d, err);
    RenderedSingle(Failed("toggleSettings: "), d, err);
  }

  /** The worker clears the flag exactly when the stream does not fail. */
  lemma {:induction false} ClearedUnlessFailed(history: seq<Entry>, model: string, chunks: seq<string>, streamFails: bool)
    ensures PromptingCleared in ResponseTrace(history, model, chunks, streamFails) <==> !streamFails
  {
    assert PromptingCleared !in ChunkEvents(chunks);
  }

  // ---------------------------------------------------------------------
  // The window
  // ---------------------------------------------------------------------

  class LegacyChat {
    /** The plain text of the chat display. */
    var raw: string
    /** Set while a prompt is being generated. */
    var prompting: bool
    /** `hiddenDefaultPrompt`: the system prompt kept out of the display. */
    var hidden: Option<string>
    /** `prevChat`: the chat shown last. */
    var prevChat: Option<string>
    /** `historyNames`. */
    var names: seq<string>

    /** The fields `__init__` sets before it builds the window. */
    constructor(names0: seq<string>)
      ensures raw == "" && !prompting && hidden.None? && prevChat.None? && names == names0
    {
      raw := "";
      prompting := false;
      hidden := None;
      prevChat := None;
      names := names0;
    }

    /** `display_text`: insert at the end of the display. */
    method DisplayText(text: string, end: string)
      modifies this
      ensures raw == old(raw) + text + end
      ensures prompting == old(prompting) && hidden == old(hidden) && prevChat == old(prevChat) && names == old(names)
    {
      raw := raw + text + end;
    }

    /**
     * `chunk`: each sentinel writes a new paragraph with its marker and asks
     * for a recolour; any other chunk is written as it is.
     */
    method Chunk(chunk: string, d: Delims) returns (recolour: bool)
      modifies this
      ensures recolour <==> chunk == "assis12" || chunk == "usr12"
      ensures chunk == "assis12" ==> raw == old(raw) + "\n\n" + d.assistant + " "
      ensures chunk == "usr12" ==> raw == old(raw) + "\n\n" + d.user + " "
      ensures !recolour ==> raw == old(raw) + chunk
      ensures prompting == old(prompting) && hidden == old(hidden) && prevChat == old(prevChat) && names == old(names)
    {
      if chunk == "assis12" {
        DisplayText("\n\n" + d.assistant + " ", "");
        recolour := true;
      } else if chunk == "usr12" {
        DisplayText("\n\n" + d.user + " ", "");
        recolour := true;
      } else {
        DisplayText(chunk, "");
        recolour := false;
      }
    }

    /**
     * `prompt` as written: while a generation runs nothing happens; otherwise
     * the flag is set, and the history is built from the stripped display when
     * it splits into at least one pair. Without a pair the method returns with
     * the flag still set.
     */
    method PromptAsWritten(d: Delims) returns (history: Option<seq<Entry>>)
      modifies this
      ensures prompting
      ensures raw == old(raw) && hidden == old(hidden) && prevChat == old(prevChat) && names == old(names)
      ensures var split := SplitText(Strip(old(raw)), d);
        && (history.Some? <==> !old(prompting) && |split| >= 2)
        && (history.Some? ==> history.value == LegacyHistory(split, d, old(hidden)))
    {
      if prompting {
        return None;
      }
      prompting := true;
      var split := SplitText(Strip(raw), d);
      if |split| < 2 {
        return None;
      }
      var entries := BuildHistory(split, LegacyMaker(d));
      var h := HiddenText(hidden);
      if h != "" && !(entries[0].role.Some? && RoleName(entries[0].role.value) == DropLast(d.system, 1)) {
        entries := [Entry(Some(System), h, None)] + entries;
      }
      history := Some(entries);
    }

    /** `prompt` as meant: the same, but a display without a pair clears the flag again. */
    method Prompt(d: Delims) returns (history: Option<seq<Entry>>)
      modifies this
      ensures raw == old(raw) && hidden == old(hidden) && prevChat == old(prevChat) && names == old(names)
      ensures var split := SplitText(Strip(old(raw)), d);
        && (old(prompting) ==> prompting && history.None?)
        && (!old(prompting) && |split| < 2 ==> !prompting && history.None?)
        && (!old(prompting) && |split| >= 2 ==> prompting && history == Some(LegacyHistory(split, d, old(hidden))))
    {
      var wasPrompting := prompting;
      history := PromptAsWritten(d);
      if !wasPrompting && history.None? {
        prompting := false;
      }
    }

    /**
     * `PromptWorker.run` seen from the window: the worker's events in order,
     * each progress text shown through `chunk`, the flag cleared after the
     * stream, and a failure shown as its context and message.
     */
    method Generate(history: seq<Entry>, model: string, chunks: seq<string>, streamFails: bool, err: string, d: Delims)
        returns (events: seq<WorkerEvent>)
      modifies this
      ensures events == ResponseTrace(history, model, chunks, streamFails)
      ensures raw == old(raw) + Rendered(events, d, err)
      ensures prompting == (old(prompting) && streamFails)
      ensures hidden == old(hidden) && prevChat == old(prevChat) && names == old(names)
    {
      events := GenerateResponse(history, model, chunks, streamFails);
      Replay(events, d, err);
      ClearedUnlessFailed(history, model, chunks, streamFails);
    }

    /** The window's handling of worker events, one after the other. */
    method Replay(events: seq<WorkerEvent>, d: Delims, err: string)
      modifies this
      ensures raw == old(raw) + Rendered(events, d, err)
      ensures prompting == (old(prompting) && PromptingCleared !in events)
      ensures hidden == old(hidden) && prevChat == old(prevChat) && names == old(names)
      decreases |events|
    {
      if events != [] {
        var n := |events| - 1;
        Replay(events[..n], d, err);
        Handle(events[n], d, err);
        assert raw == old(raw) + Rendered(events[..n], d, err) + EventText(events[n], d, err);
        assert events == events[..n] + [events[n]];
      }
    }

    /** One worker event: progress goes through `chunk`, a failure is shown, and the clearing event clears the flag. */
    method Handle(e: WorkerEvent, d: Delims, err: string)
      modifies this
      ensures raw == old(raw) + EventText(e, d, err)
      ensures prompting == (old(prompting) && e != PromptingCleared)
      ensures hidden == old(hidden) && prevChat == old(prevChat) && names == old(names)
    {
      match e {
        case Progress(t) =>
          var _ := Chunk(t, d);
        case Failed(ctx) =>
          DisplayText(ctx, err);
        case PromptingCleared =>
          prompting := false;
        case _ =>
      }
    }

    /**
     * `newChat` as meant: put the least free "new chat i" at the front of the
     * list, then seed the display as `Seed` does.
     */
    method NewChat(d: Delims, enable: bool, hidePrompt: bool, sysPrompt: string) returns (ghost number: nat)
      modifies this
      ensures number >= 1 && |names| == |old(names)| + 1 && names[1..] == old(names)
      ensures names[0] == ChatHandler.Candidate("new chat", " ", number, "") && names[0] !in old(names)
      ensures forall j :: 1 <= j < number ==> ChatHandler.Candidate("new chat", " ", j, "") in old(names)
      ensures raw == (if enable && !hidePrompt then ChatHandler.HiddenSection(sysPrompt, d) else "") + d.user + " "
      ensures enable && hidePrompt ==> hidden == Some(sysPrompt)
      ensures !(enable && hidePrompt) ==> hidden == old(hidden)
      ensures prompting == old(prompting) && prevChat == old(prevChat)
    {
      var name;
      name, number := NumberedName(names);
      Seed(name, d, enable, hidePrompt, sysPrompt);
    }

    /**
     * `newChat` as written: the name comes from the loop that drops one
     * character and appends the pass number, so it is never "new chat 11".
     */
    method NewChatAsWritten(d: Delims, enable: bool, hidePrompt: bool, sysPrompt: string) returns (ghost passes: nat)
      modifies this
      ensures |names| == |old(names)| + 1 && names[1..] == old(names)
      ensures names[0] == LegacyNameAt(passes) && names[0] !in old(names) && names[0] != "new chat 11"
      ensures forall j :: 0 <= j < passes ==> LegacyNameAt(j) in old(names)
      ensures raw == (if enable && !hidePrompt then ChatHandler.HiddenSection(sysPrompt, d) else "") + d.user + " "
      ensures enable && hidePrompt ==> hidden == Some(sysPrompt)
      ensures !(enable && hidePrompt) ==> hidden == old(hidden)
      ensures prompting == old(prompting) && prevChat == old(prevChat)
    {
      var name;
      name, passes := LegacyNewName(names);
      LegacyNameSkipsEleven(passes);
      Seed(name, d, enable, hidePrompt, sysPrompt);
    }

    /**
     * The rest of `newChat` once the name is chosen: put it at the front of
     * the list, clear the display and seed it with the system section when
     * the prompt is enabled and shown, or keep the prompt hidden, then the
     * user marker.
     */
    method Seed(name: string, d: Delims, enable: bool, hidePrompt: bool, sysPrompt: string)
      modifies this
      ensures names == [name] + old(names)
      ensures raw == (if enable && !hidePrompt then ChatHandler.HiddenSection(sysPrompt, d) else "") + d.user + " "
      ensures enable && hidePrompt ==> hidden == Some(sysPrompt)
      ensures !(enable && hidePrompt) ==> hidden == old(hidden)
      ensures prompting == old(prompting) && prevChat == old(prevChat)
    {
      names := [name] + names;
      raw := "";
      if enable {
        if !hidePrompt {
          DisplayText(ChatHandler.HiddenSection(sysPrompt, d), "");
        } else {
          hidden := Some(sysPrompt);
        }
      }
      DisplayText(d.user + " ", "");
    }

    /**
     * `loadChat` for the chat `name`: the temporary copy wins over the saved
     * file; the display is cleared and shows the loaded text (the view
     * evidently meant), or stays empty without a file.
     */
    method LoadChat(name: string, temp: Option<string>, perm: Option<string>, d: Delims)
      modifies this
      ensures var file := if temp.Some? then temp else perm;
              raw == if file.Some? then LoadedView(file.value, hidden, d) else ""
      ensures prevChat == Some(name)
      ensures prompting == old(prompting) && hidden == old(hidden) && names == old(names)
    {
      raw := "";
      var file := if temp.Some? then temp else perm;
      if file.Some? {
        DisplayText(LoadedView(file.value, hidden, d), "");
      }
      prevChat := Some(name);
    }
  }

  /**
   * As written, a prompt on a display without a pair blocks every later
   * prompt: nothing clears the flag again, whatever the display then holds.
   */
  method UnpairedPromptBlocks(c: LegacyChat, d: Delims, later: string) returns (second: Option<seq<Entry>>)
    requires !c.prompting && |SplitText(Strip(c.raw), d)| < 2
    modifies c
    ensures c.prompting && second.None?
  {
    var first := c.PromptAsWritten(d);
    c.raw := later;
    second := c.PromptAsWritten(d);
  }
}
