/**
 * The background prompt worker: it turns the split transcript into the chat
 * history sent to the model, reports missing images, detects a request to
 * regenerate the last answer, and streams the answer back as progress events.
 *
 * The image scan of a content piece and the set of existing files are inputs;
 * the model's answer is a given sequence of chunks, possibly ending in a
 * failure of the stream.
 */
module PromptWorker {
  import opened Wrappers
  import opened Text
  import opened Transcript

  datatype Role = User | Assistant | System

  /** The role's name as it appears in a history entry. */
  function RoleName(r: Role): string {
    match r
    case User => "user"
    case Assistant => "assistant"
    case System => "system"
  }

  /** One history message; a marker that names no role gives `None`, and `images` is present only when some were found. */
  datatype Entry = Entry(role: Option<Role>, content: string, images: Option<seq<string>>)

  /** What the worker emits, and the request it makes to the model. */
  datatype WorkerEvent =
    | Progress(text: string)
    | ReGen(text: string)
    | Finished
    | PromptingCleared
    | PrevModelSaved(model: string)
    | Request(model: string, messages: seq<Entry>)
    | Failed(context: string)

  /** The role of a marker piece: the first delimiter, in the order user, assistant, system, that its lowercase form starts with. */
  function RoleOf(marker: string, d: Delims): Option<Role>
  {
    var m := LowerStr(marker);
    if StartsWith(m, d.user) then Some(User)
    else if StartsWith(m, d.assistant) then Some(Assistant)
    else if StartsWith(m, d.system) then Some(System)
    else None
  }

  /** The alternative the split itself takes at the start of a piece, as a role. */
  function MatchedRole(marker: string, d: Delims): Option<Role> {
    if OccursAt(marker, 0, d.user, true) then Some(User)
    else if OccursAt(marker, 0, d.assistant, true) then Some(Assistant)
    else if OccursAt(marker, 0, d.system, true) then Some(System)
    else None
  }

  /** Delimiters as the settings store them: already lowercase. */
  predicate LowerDelims(d: Delims) {
    LowerStr(d.user) == d.user && LowerStr(d.assistant) == d.assistant && LowerStr(d.system) == d.system
  }

  lemma {:induction false} LowerOccurs(m: string, p: string)
    requires LowerStr(p) == p
    ensures StartsWith(LowerStr(m), p) <==> OccursAt(m, 0, p, true)
  {
    OccursAtChars(m, 0, p, true);
    var lm := LowerStr(m);
    if StartsWith(lm, p) {
      forall k | 0 <= k < |p| ensures CharEq(m[0 + k], p[k], true) {
        assert lm[..|p|][k] == lm[k];
        LowerStrAt(m, k);
        assert Lower(p[k]) == p[k] by { LowerStrAt(p, k); }
      }
    }
    if OccursAt(m, 0, p, true) {
      forall k | 0 <= k < |p| ensures lm[..|p|][k] == p[k] {
        assert CharEq(m[0 + k], p[k], true);
        LowerStrAt(m, k);
        assert Lower(p[k]) == p[k] by { LowerStrAt(p, k); }
        LowerOfLowercase(p[k]);
      }
      assert lm[..|p|] == p;
    }
  }

  lemma {:induction false} LowerOfLowercase(c: char)
    requires Lower(c) == c
    ensures Lower(Lower(c)) == Lower(c)
  {
  }

  /**
   * With lowercase delimiters the worker assigns a marker the role of the very
   * alternative the split matched there, so every marker piece gets a role.
   */
  lemma {:induction false} RoleAgreesWithSplit(marker: string, d: Delims)
    requires LowerDelims(d)
    ensures RoleOf(marker, d) == MatchedRole(marker, d)
    ensures IsMarker(marker, d, true) ==> RoleOf(marker, d).Some?
  {
    LowerOccurs(marker, d.user);
    LowerOccurs(marker, d.assistant);
    LowerOccurs(marker, d.system);
  }

  /** The history entry of one (marker, content) pair. */
  function EntryOf(marker: string, content: string, d: Delims, scan: string -> seq<string>): Entry {
    var images := scan(content);
    Entry(RoleOf(marker, d), Strip(content), if |images| > 0 then Some(images) else None)
  }

  /** How a (marker, content) pair becomes a history entry; the walk is stated for any such map. */
  type EntryMaker = (string, string) -> Entry

  /** The worker's own entry map. */
  function Maker(d: Delims, scan: string -> seq<string>): EntryMaker {
    (marker: string, content: string) => EntryOf(marker, content, d, scan)
  }

  /** The content piece of pair `k`. */
  function ContentAt(split: seq<string>, k: nat): string
    requires 2 * k + 1 < |split|
  {
    split[2 * k + 1]
  }

  /** The entries of the first `p` pairs, in the buffer's order. */
  function EntriesUpTo(split: seq<string>, p: nat, mk: EntryMaker): (r: seq<Entry>)
    requires 2 * p <= |split|
    ensures |r| == p
    decreases p
  {
    if p == 0 then [] else EntriesUpTo(split, p - 1, mk) + [mk(split[2 * p - 2], split[2 * p - 1])]
  }

  /** Entry `k` of the history is the entry of pair `k`. */
  lemma {:induction false} EntriesUpToIndex(split: seq<string>, p: nat, mk: EntryMaker, k: nat)
    requires 2 * p <= |split| && k < p
    ensures EntriesUpTo(split, p, mk)[k] == mk(split[2 * k], ContentAt(split, k))
    decreases p
  {
    if k < p - 1 {
      EntriesUpToIndex(split, p - 1, mk, k);
    }
  }

  lemma {:induction false} EntriesPrefix(split: seq<string>, p: nat, mk: EntryMaker)
    requires 0 < p && 2 * p <= |split|
    ensures EntriesUpTo(split, p, mk)[..p - 1] == EntriesUpTo(split, p - 1, mk)
  {
    var r := EntriesUpTo(split, p, mk);
    assert r == EntriesUpTo(split, p - 1, mk) + [mk(split[2 * p - 2], split[2 * p - 1])];
  }

  /** One progress message per image that does not exist, in scan order. */
  function MissingReports(images: seq<string>, existing: set<string>): seq<WorkerEvent>
    decreases |images|
  {
    if images == [] then []
    else
      var last := images[|images| - 1];
      var rest := MissingReports(images[..|images| - 1], existing);
      rest + (if last in existing then [] else [Progress("\nimage not found - " + last)])
  }

  /** There is no report exactly when every image exists, and each report names a missing image. */
  lemma {:induction false} MissingReportsSpec(images: seq<string>, existing: set<string>)
    ensures MissingReports(images, existing) == [] <==> AllExist(images, existing)
    ensures forall e :: e in MissingReports(images, existing) ==>
              exists k :: 0 <= k < |images| && images[k] !in existing && e == Progress("\nimage not found - " + images[k])
    decreases |images|
  {
    if images != [] {
      var init := images[..|images| - 1];
      MissingReportsSpec(init, existing);
      forall e | e in MissingReports(images, existing)
        ensures exists k :: 0 <= k < |images| && images[k] !in existing && e == Progress("\nimage not found - " + images[k])
      {
        if e in MissingReports(init, existing) {
          var k :| 0 <= k < |init| && init[k] !in existing && e == Progress("\nimage not found - " + init[k]);
          assert images[k] == init[k];
        } else {
          assert images[|images| - 1] !in existing;
        }
      }
      if AllExist(images, existing) {
        assert AllExist(init, existing) by {
          forall k | 0 <= k < |init| ensures init[k] in existing { assert images[k] == init[k]; }
        }
      }
      if AllExist(init, existing) && images[|images| - 1] in existing {
        forall k | 0 <= k < |images| ensures images[k] in existing {
          if k < |init| { assert images[k] == init[k]; }
        }
      }
    }
  }

  /** The missing-image reports of the first `p` pairs. */
  function ReportsUpTo(split: seq<string>, p: nat, scan: string -> seq<string>, existing: set<string>): seq<WorkerEvent>
    requires 2 * p <= |split|
    decreases p
  {
    if p == 0 then [] else ReportsUpTo(split, p - 1, scan, existing) + MissingReports(scan(split[2 * p - 1]), existing)
  }

  predicate AllExist(images: seq<string>, existing: set<string>) {
    forall i :: 0 <= i < |images| ==> images[i] in existing
  }

  /** No report at all exactly when every image found in every content piece exists. */
  lemma {:induction false} NoReportsWhenAllExist(split: seq<string>, p: nat, scan: string -> seq<string>, existing: set<string>)
    requires 2 * p <= |split|
    ensures ReportsUpTo(split, p, scan, existing) == []
            <==> forall k :: 0 <= k < p ==> AllExist(scan(ContentAt(split, k)), existing)
    decreases p
  {
    if p > 0 {
      NoReportsWhenAllExist(split, p - 1, scan, existing);
      var rest := ReportsUpTo(split, p - 1, scan, existing);
      var here := MissingReports(scan(split[2 * p - 1]), existing);
      MissingReportsSpec(scan(split[2 * p - 1]), existing);
      assert rest + here == [] <==> rest == [] && here == [];
      assert ContentAt(split, p - 1) == split[2 * p - 1];
    }
  }

  /** The number of complete (marker, content) pairs; a final unpaired marker is skipped. */
  function PairCount(n: nat): (r: nat)
    ensures 2 * r <= n < 2 * r + 2
  {
    n / 2
  }

  /** The buffer asks to regenerate: its last pair has empty content. */
  predicate Regenerates(split: seq<string>) {
    |split| >= 2 && |split| % 2 == 0 && split[|split| - 1] == ""
  }

  /** Python's `history[:-1]`. */
  function DropLastEntry(h: seq<Entry>): (r: seq<Entry>)
    ensures |h| > 0 ==> r == h[..|h| - 1]
    ensures |h| == 0 ==> r == []
  {
    if |h| > 0 then h[..|h| - 1] else []
  }

  /** The history the pair walk builds. */
  function HistoryFor(split: seq<string>, mk: EntryMaker): seq<Entry> {
    if Regenerates(split) then DropLastEntry(EntriesUpTo(split, PairCount(|split|) - 1, mk))
    else EntriesUpTo(split, PairCount(|split|), mk)
  }

  /** Without a regeneration request every pair gives its entry, in order. */
  lemma {:induction false} HistoryKeepsEveryPair(split: seq<string>, mk: EntryMaker)
    requires !Regenerates(split)
    ensures var h := HistoryFor(split, mk);
            |h| == |split| / 2
            && forall k :: 0 <= k < |h| ==> h[k] == mk(split[2 * k], ContentAt(split, k))
  {
    var h := HistoryFor(split, mk);
    forall k | 0 <= k < |h| ensures h[k] == mk(split[2 * k], ContentAt(split, k)) {
      EntriesUpToIndex(split, PairCount(|split|), mk, k);
    }
  }

  /**
   * Regeneration: the empty final pair gives no entry and the answer before it
   * is dropped, so the history holds exactly the pairs before the last two.
   */
  lemma {:induction false} RegenDropsLastAnswer(split: seq<string>, mk: EntryMaker)
    requires Regenerates(split)
    ensures |split| == 2 ==> HistoryFor(split, mk) == []
    ensures |split| >= 4 ==> HistoryFor(split, mk) == EntriesUpTo(split, PairCount(|split|) - 2, mk)
  {
    var p := PairCount(|split|);
    if |split| >= 4 {
      EntriesPrefix(split, p - 1, mk);
    }
  }

  /** The hidden default prompt goes first unless the first entry's role is named like the system marker. */
  function WithHiddenPrompt(h: seq<Entry>, hidden: string, d: Delims): (r: seq<Entry>)
    requires hidden != "" ==> |h| > 0
    ensures hidden == "" ==> r == h
    ensures hidden != "" ==>
      (r == h <==> (h[0].role.Some? && RoleName(h[0].role.value) == DropLast(d.system, 1)))
    ensures r != h ==> r == [Entry(Some(System), hidden, None)] + h
  {
    if hidden != "" && !(h[0].role.Some? && RoleName(h[0].role.value) == DropLast(d.system, 1))
    then [Entry(Some(System), hidden, None)] + h
    else h
  }

  /** All progress texts as `chunk` would receive them for a stream. */
  function ChunkEvents(chunks: seq<string>): (r: seq<WorkerEvent>)
    ensures |r| == |chunks| && forall k :: 0 <= k < |r| ==> r[k] == Progress(chunks[k])
  {
    seq(|chunks|, k requires 0 <= k < |chunks| => Progress(chunks[k]))
  }

  /** The events of `generateResponse`. */
  function ResponseTrace(history: seq<Entry>, model: string, chunks: seq<string>, streamFails: bool): seq<WorkerEvent> {
    [PrevModelSaved(model), Progress("assis12"), Request(model, history)]
    + ChunkEvents(chunks)
    + (if streamFails then [Failed("toggleSettings: ")] else [Progress("usr12"), PromptingCleared])
    + [Finished]
  }

  /** `generateResponse` ends with exactly one `finished`, whether or not the stream fails. */
  lemma {:induction false} ResponseFinishesOnce(history: seq<Entry>, model: string, chunks: seq<string>, streamFails: bool)
    ensures var t := ResponseTrace(history, model, chunks, streamFails);
            t[|t| - 1] == Finished && Finished !in t[..|t| - 1]
    ensures var t := ResponseTrace(history, model, chunks, streamFails);
            t[..3] == [PrevModelSaved(model), Progress("assis12"), Request(model, history)]
            && t[3..3 + |chunks|] == ChunkEvents(chunks)
            && (!streamFails ==> t[3 + |chunks|] == Progress("usr12"))
  {
    var t := ResponseTrace(history, model, chunks, streamFails);
    var tail := if streamFails then [Failed("toggleSettings: ")] else [Progress("usr12"), PromptingCleared];
    assert t == [PrevModelSaved(model), Progress("assis12"), Request(model, history)] + ChunkEvents(chunks) + tail + [Finished];
    assert t[..|t| - 1] == [PrevModelSaved(model), Progress("assis12"), Request(model, history)] + ChunkEvents(chunks) + tail;
    assert Finished !in ChunkEvents(chunks);
  }

  /** The texts of the progress events of a trace, joined as the display receives them. */
  function ProgressText(t: seq<WorkerEvent>): string
    decreases |t|
  {
    if t == [] then ""
    else (if t[0].Progress? then t[0].text else "") + ProgressText(t[1..])
  }

  lemma {:induction false} ProgressTextCons(e: WorkerEvent, t: seq<WorkerEvent>)
    ensures ProgressText([e] + t) == (if e.Progress? then e.text else "") + ProgressText(t)
  {
    assert ([e] + t)[1..] == t;
  }

  lemma {:induction false} ProgressTextAppend(a: seq<WorkerEvent>, b: seq<WorkerEvent>)
    ensures ProgressText(a + b) == ProgressText(a) + ProgressText(b)
    decreases |a|
  {
    if a == [] {
      assert a + b == b;
    } else {
      assert (a + b)[1..] == a[1..] + b;
      ProgressTextAppend(a[1..], b);
    }
  }

  lemma {:induction false} ProgressTextOfChunks(chunks: seq<string>)
    ensures ProgressText(ChunkEvents(chunks)) == Concat(chunks)
    decreases |chunks|
  {
    if chunks != [] {
      assert ChunkEvents(chunks)[1..] == ChunkEvents(chunks[1..]);
      ProgressTextOfChunks(chunks[1..]);
    }
  }

  /** A completed answer reaches the display as the assistant sentinel, the chunks in stream order, and the user sentinel. */
  lemma {:induction false} ResponseText(history: seq<Entry>, model: string, chunks: seq<string>)
    ensures ProgressText(ResponseTrace(history, model, chunks, false)) == "assis12" + Concat(chunks) + "usr12"
  {
    var head := [PrevModelSaved(model), Progress("assis12"), Request(model, history)];
    var tail: seq<WorkerEvent> := [Progress("usr12"), PromptingCleared];
    ProgressTextAppend(head + ChunkEvents(chunks) + tail, [Finished]);
    ProgressTextAppend(head + ChunkEvents(chunks), tail);
    ProgressTextAppend(head, ChunkEvents(chunks));
    ProgressTextOfChunks(chunks);
    HeadText(model, history);
    TailText();
  }

  lemma {:induction false} HeadText(model: string, history: seq<Entry>)
    ensures ProgressText([PrevModelSaved(model), Progress("assis12"), Request(model, history)]) == "assis12"
  {
    var none: seq<WorkerEvent> := [];
    ProgressTextCons(Request(model, history), none);
    assert [Request(model, history)] == [Request(model, history)] + none;
    ProgressTextCons(Progress("assis12"), [Request(model, history)]);
    assert [Progress("assis12"), Request(model, history)] == [Progress("assis12")] + [Request(model, history)];
    ProgressTextCons(PrevModelSaved(model), [Progress("assis12"), Request(model, history)]);
    assert [PrevModelSaved(model), Progress("assis12"), Request(model, history)]
           == [PrevModelSaved(model)] + [Progress("assis12"), Request(model, history)];
  }

  lemma {:induction false} TailText()
    ensures ProgressText([Progress("usr12"), PromptingCleared]) == "usr12"
    ensures ProgressText([Finished]) == ""
  {
    var none: seq<WorkerEvent> := [];
    ProgressTextCons(PromptingCleared, none);
    assert [PromptingCleared] == [PromptingCleared] + none;
    ProgressTextCons(Progress("usr12"), [PromptingCleared]);
    assert [Progress("usr12"), PromptingCleared] == [Progress("usr12")] + [PromptingCleared];
    ProgressTextCons(Finished, none);
    assert [Finished] == [Finished] + none;
  }

  /** Everything `prompt` emits, up to and including the response. */
  function PromptTrace(split: seq<string>, d: Delims, hidden: string, model: string, scan: string -> seq<string>,
                       existing: set<string>, chunks: seq<string>, streamFails: bool): seq<WorkerEvent>
  {
    var reports := ReportsUpTo(split, PairCount(|split|), scan, existing);
    var walk := reports + (if Regenerates(split) then [ReGen("regen")] else []);
    var h := HistoryFor(split, Maker(d, scan));
    if reports != [] then walk + [PromptingCleared, Finished]
    else if hidden != "" && |h| == 0 then walk + [Failed("prompt worker: ")]
    else walk + ResponseTrace(WithHiddenPrompt(h, hidden, d), model, chunks, streamFails)
  }

  /** A missing image stops the prompt before any request: the flag is cleared and `finished` is emitted. */
  lemma {:induction false} MissingImageStopsPrompt(split: seq<string>, d: Delims, hidden: string, model: string,
                                                   scan: string -> seq<string>, existing: set<string>,
                                                   chunks: seq<string>, streamFails: bool)
    requires ReportsUpTo(split, PairCount(|split|), scan, existing) != []
    ensures var t := PromptTrace(split, d, hidden, model, scan, existing, chunks, streamFails);
            |t| >= 2 && t[|t| - 2..] == [PromptingCleared, Finished] && forall e :: e in t ==> !e.Request?
  {
    ReportsAreProgress(split, PairCount(|split|), scan, existing);
  }

  lemma {:induction false} ReportsAreProgress(split: seq<string>, p: nat, scan: string -> seq<string>, existing: set<string>)
    requires 2 * p <= |split|
    ensures forall e :: e in ReportsUpTo(split, p, scan, existing) ==> e.Progress?
    decreases p
  {
    if p > 0 {
      ReportsAreProgress(split, p - 1, scan, existing);
      MissingReportsSpec(scan(split[2 * p - 1]), existing);
    }
  }

  /**
   * The pair walk of `prompt`: for each (marker, content) pair, report its
   * missing images; at an empty final content drop the previous entry and ask
   * to regenerate, otherwise append the pair's entry.
   */
  method WalkPairs(split: seq<string>, mk: EntryMaker, scan: string -> seq<string>, existing: set<string>)
      returns (history: seq<Entry>, missingImages: bool, events: seq<WorkerEvent>)
    ensures history == HistoryFor(split, mk)
    ensures events == ReportsUpTo(split, PairCount(|split|), scan, existing)
                      + (if Regenerates(split) then [ReGen("regen")] else [])
    ensures missingImages <==> ReportsUpTo(split, PairCount(|split|), scan, existing) != []
  {
    history := [];
    missingImages := false;
    events := [];
    var counter := 0;
    ghost var pairs: nat := 0;
    while counter < |split|
      invariant counter == 2 * pairs && counter <= |split| + 1
      invariant WalkAfter(split, pairs, mk, scan, existing) == WalkState(history, events, missingImages)
      decreases |split| - counter
    {
      if counter + 1 < |split| {
        var images := scan(split[counter + 1]);
        var missing, reports := ReportMissing(images, existing);
        missingImages := missingImages || missing;
        events := events + reports;
        if counter + 1 == |split| - 1 && split[|split| - 1] == "" {
          history := DropLastEntry(history);
          events := events + [ReGen("regen")];
        } else {
          history := history + [mk(split[counter], split[counter + 1])];
        }
      }
      counter := counter + 2;
      pairs := pairs + 1;
    }
    WalkComplete(split, pairs, mk, scan, existing);
  }

  /** Once every pair is walked, the state is the history, the reports and the regeneration request of the whole buffer. */
  lemma {:induction false} WalkComplete(split: seq<string>, p: nat, mk: EntryMaker, scan: string -> seq<string>, existing: set<string>)
    requires |split| <= 2 * p <= |split| + 1
    ensures var reports := ReportsUpTo(split, PairCount(|split|), scan, existing);
            WalkAfter(split, p, mk, scan, existing)
            == WalkState(HistoryFor(split, mk), reports + (if Regenerates(split) then [ReGen("regen")] else []), reports != [])
  {
    var q := PairCount(|split|);
    var reports := ReportsUpTo(split, q, scan, existing);
    if Regenerates(split) {
      assert p == q;
      WalkAtRegen(split, mk, scan, existing);
    } else {
      assert HistoryFor(split, mk) == EntriesUpTo(split, q, mk);
      assert reports + [] == reports;
      WalkBeforeRegen(split, q, mk, scan, existing);
      if p != q {
        WalkOverUnpaired(split, mk, scan, existing);
      }
    }
  }

  /** The state of the pair walk: the history so far, the events so far, and whether an image was missing. */
  datatype WalkState = WalkState(history: seq<Entry>, events: seq<WorkerEvent>, missing: bool)

  /** The walk state after the first `p` steps of the loop, one pair per step. */
  ghost function WalkAfter(split: seq<string>, p: nat, mk: EntryMaker, scan: string -> seq<string>, existing: set<string>): WalkState
    requires 2 * p <= |split| + 1
    decreases p
  {
    if p == 0 then WalkState([], [], false)
    else
      var w := WalkAfter(split, p - 1, mk, scan, existing);
      var c := 2 * p - 2;
      if c + 1 < |split| then
        var reports := MissingReports(scan(split[c + 1]), existing);
        var missing := w.missing || reports != [];
        if c + 1 == |split| - 1 && split[|split| - 1] == "" then
          WalkState(DropLastEntry(w.history), w.events + reports + [ReGen("regen")], missing)
        else
          WalkState(w.history + [mk(split[c], split[c + 1])], w.events + reports, missing)
      else w
  }

  /** Before any regeneration request, `p` steps hold the entries and reports of the first `p` pairs. */
  lemma {:induction false} WalkBeforeRegen(split: seq<string>, p: nat, mk: EntryMaker, scan: string -> seq<string>, existing: set<string>)
    requires 2 * p <= |split| && !(Regenerates(split) && 2 * p == |split|)
    ensures WalkAfter(split, p, mk, scan, existing)
            == WalkState(EntriesUpTo(split, p, mk), ReportsUpTo(split, p, scan, existing),
                         ReportsUpTo(split, p, scan, existing) != [])
    decreases p
  {
    if p > 0 {
      WalkPlainStep(split, p, mk, scan, existing);
      WalkBeforeRegen(split, p - 1, mk, scan, existing);
      WalkStep(split, p - 1, mk, scan, existing);
    }
  }

  /** A step that is not the one over an empty final pair appends the pair's entry and reports. */
  lemma {:induction false} WalkPlainStep(split: seq<string>, p: nat, mk: EntryMaker, scan: string -> seq<string>, existing: set<string>)
    requires 0 < p && 2 * p <= |split| && !(Regenerates(split) && 2 * p == |split|)
    ensures var w := WalkAfter(split, p - 1, mk, scan, existing);
            var reports := MissingReports(scan(split[2 * p - 1]), existing);
            WalkAfter(split, p, mk, scan, existing)
            == WalkState(w.history + [mk(split[2 * p - 2], split[2 * p - 1])], w.events + reports, w.missing || reports != [])
  {
  }

  /** The step over an empty final pair drops the last entry and asks to regenerate. */
  lemma {:induction false} WalkAtRegen(split: seq<string>, mk: EntryMaker, scan: string -> seq<string>, existing: set<string>)
    requires Regenerates(split)
    ensures WalkAfter(split, PairCount(|split|), mk, scan, existing)
            == WalkState(HistoryFor(split, mk),
                         ReportsUpTo(split, PairCount(|split|), scan, existing) + [ReGen("regen")],
                         ReportsUpTo(split, PairCount(|split|), scan, existing) != [])
  {
    var p := PairCount(|split|);
    assert 2 * p == |split|;
    WalkBeforeRegen(split, p - 1, mk, scan, existing);
    WalkStep(split, p - 1, mk, scan, existing);
  }

  /** A final marker without content is walked over without effect. */
  lemma {:induction false} WalkOverUnpaired(split: seq<string>, mk: EntryMaker, scan: string -> seq<string>, existing: set<string>)
    requires |split| % 2 == 1
    ensures WalkAfter(split, PairCount(|split|) + 1, mk, scan, existing) == WalkAfter(split, PairCount(|split|), mk, scan, existing)
  {
  }

  /** One step of the walk extends the entries and the reports by those of the next pair. */
  lemma {:induction false} WalkStep(split: seq<string>, p: nat, mk: EntryMaker, scan: string -> seq<string>, existing: set<string>)
    requires 2 * p + 2 <= |split|
    ensures EntriesUpTo(split, p + 1, mk) == EntriesUpTo(split, p, mk) + [mk(split[2 * p], split[2 * p + 1])]
    ensures ReportsUpTo(split, p + 1, scan, existing) == ReportsUpTo(split, p, scan, existing) + MissingReports(scan(split[2 * p + 1]), existing)
  {
  }

  /** The existence check of one content piece's images: one report per missing image, in scan order. */
  method ReportMissing(images: seq<string>, existing: set<string>) returns (missing: bool, reports: seq<WorkerEvent>)
    ensures reports == MissingReports(images, existing)
    ensures missing <==> !AllExist(images, existing)
    ensures missing <==> reports != []
  {
    MissingReportsSpec(images, existing);
    missing := false;
    reports := [];
    var j := 0;
    while j < |images|
      invariant 0 <= j <= |images|
      invariant reports == MissingReports(images[..j], existing)
      invariant missing <==> reports != []
    {
      assert images[..j + 1][..j] == images[..j];
      if images[j] !in existing {
        missing := true;
        reports := reports + [Progress("\nimage not found - " + images[j])];
      }
      assert images[..j + 1][..j] == images[..j];
      j := j + 1;
    }
    assert images[..j] == images;
  }

  /**
   * `generateResponse`: save the model as the previous one, send the sentinel
   * that opens the assistant's section, request the answer and pass each chunk
   * on as it arrives; a completed stream sends the sentinel that opens the
   * user's section and clears the prompting flag, a failed one is reported.
   * `finished` follows in both cases.
   */
  method GenerateResponse(history: seq<Entry>, model: string, chunks: seq<string>, streamFails: bool)
      returns (events: seq<WorkerEvent>)
    ensures events == ResponseTrace(history, model, chunks, streamFails)
  {
    var head := [PrevModelSaved(model), Progress("assis12"), Request(model, history)];
    events := head;
    var i := 0;
    while i < |chunks|
      invariant 0 <= i <= |chunks|
      invariant events == head + ChunkEvents(chunks[..i])
    {
      assert ChunkEvents(chunks[..i + 1]) == ChunkEvents(chunks[..i]) + [Progress(chunks[i])];
      events := events + [Progress(chunks[i])];
      i := i + 1;
    }
    assert chunks[..i] == chunks;
    if streamFails {
      events := events + [Failed("toggleSettings: ")];
    } else {
      events := events + [Progress("usr12"), PromptingCleared];
    }
    events := events + [Finished];
  }

  /**
   * `prompt`: walk the pairs; stop after the reports when an image is missing;
   * put the hidden default prompt first when one is set and the first entry is
   * not already a system one (an empty history makes that test fail, which the
   * worker reports); then generate the response.
   */
  method Prompt(split: seq<string>, d: Delims, hidden: string, model: string, scan: string -> seq<string>,
                existing: set<string>, chunks: seq<string>, streamFails: bool)
      returns (events: seq<WorkerEvent>)
    ensures events == PromptTrace(split, d, hidden, model, scan, existing, chunks, streamFails)
  {
    var history, missingImages, walk := WalkPairs(split, Maker(d, scan), scan, existing);
    if missingImages {
      events := walk + [PromptingCleared, Finished];
      return;
    }
    if hidden != "" && |history| == 0 {
      events := walk + [Failed("prompt worker: ")];
      return;
    }
    if hidden != "" && !(history[0].role.Some? && RoleName(history[0].role.value) == DropLast(d.system, 1)) {
      history := [Entry(Some(System), hidden, None)] + history;
    }
    var response := GenerateResponse(history, model, chunks, streamFails);
    events := walk + response;
  }
}
