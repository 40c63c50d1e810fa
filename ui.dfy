/**
 * The older main window, which holds the chat display itself: the same
 * append-only edits and regeneration cut as the separate chat display, a
 * chunk handler that always opens a new paragraph, and role colours that run
 * from one marker to the next.
 */
module UI {
  import opened Text
  import opened Transcript
  import opened ChatDisplay

  /** Where the `k`-th span ends: at the next match, or at the end of the text for the last. */
  function TileEnd(text: string, ms: seq<Found>, k: nat): nat
    requires InOrder(ms, |text|) && k < |ms|
  {
    if k + 1 < |ms| then QtIndex(text, ms[k + 1].start) else Utf16Len(text)
  }

  /** The spans the window colours for given matches: each runs to the next match or the end. */
  function TilesFor(text: string, ms: seq<Found>, d: Delims): seq<Span>
    requires InOrder(ms, |text|)
  {
    seq(|ms|, k requires 0 <= k < |ms| => Span(QtIndex(text, ms[k].start), TileEnd(text, ms, k), MatchColourAt(text, ms, k, d)))
  }

  /** `recolour_text` of the window, on the marker matches of the lower-cased text. */
  function RoleSpans(text: string, d: Delims): seq<Span> {
    TilesFor(text, Matches(text, d), d)
  }

  /**
   * The spans tile the text from the first match on: each is non-empty, each
   * ends where the next begins, and the last ends at the end of the text.
   */
  lemma {:induction false} RoleSpansTile(text: string, d: Delims)
    ensures var ms := Matches(text, d); var sp := RoleSpans(text, d);
      && |sp| == |ms|
      && (|sp| > 0 ==> sp[0].start == QtIndex(text, ms[0].start) && sp[|sp| - 1].end == Utf16Len(text))
      && (forall k :: 0 <= k < |sp| ==> sp[k].start < sp[k].end)
      && (forall k :: 0 <= k < |sp| - 1 ==> sp[k].end == sp[k + 1].start)
  {
    TilesForTile(text, Matches(text, d), d);
  }

  lemma {:induction false} TilesForTile(text: string, ms: seq<Found>, d: Delims)
    requires InOrder(ms, |text|)
    ensures var sp := TilesFor(text, ms, d);
      && |sp| == |ms|
      && (|sp| > 0 ==> sp[0].start == QtIndex(text, ms[0].start) && sp[|sp| - 1].end == Utf16Len(text))
      && (forall k :: 0 <= k < |sp| ==> sp[k].start < sp[k].end)
      && (forall k :: 0 <= k < |sp| - 1 ==> sp[k].end == sp[k + 1].start)
  {
    var sp := TilesFor(text, ms, d);
    forall k | 0 <= k < |sp| ensures sp[k].start < sp[k].end {
      TileNonEmpty(text, ms, k);
    }
  }

  /** The `k`-th match starts strictly before its span's end. */
  lemma {:induction false} TileNonEmpty(text: string, ms: seq<Found>, k: nat)
    requires InOrder(ms, |text|) && k < |ms|
    ensures QtIndex(text, ms[k].start) < TileEnd(text, ms, k)
  {
    QtIndexEnd(text);
    if k + 1 < |ms| {
      QtIndexMonotone(text, ms[k].start, ms[k + 1].start);
    } else {
      QtIndexMonotone(text, ms[k].start, |text|);
    }
  }

  class Window {
    /** The plain text of the chat display. */
    var raw: string

    constructor()
      ensures raw == ""
    {
      raw := "";
    }

    /** `display_text`: insert at the end of the buffer. */
    method DisplayText(text: string, end: string)
      modifies this
      ensures raw == old(raw) + text + end
    {
      raw := raw + text + end;
    }

    /**
     * `chunk`: each sentinel writes a new paragraph with its marker and asks
     * for a recolour; any other chunk is written as it is.
     */
    method Chunk(chunk: string, d: Delims) returns (recolour: bool)
      modifies this
      ensures recolour <==> chunk == "assis12" || chunk == "usr12"
      ensures chunk == "assis12" ==> raw == old(raw) + "\n\n" + d.assistant + " "
      ensures chunk == "usr12" ==> raw == old(raw) + "\n\n" + d.user + " "
      ensures !recolour ==> raw == old(raw) + chunk
    {
      if chunk == "assis12" {
        DisplayText("\n\n" + d.assistant + " ", "");
        recolour := true;
      } else if chunk == "usr12" {
        DisplayText("\n\n" + d.user + " ", "");
        recolour := true;
      } else {
        DisplayText(chunk, "");
        recolour := false;
      }
    }

    /**
     * `deleteForRegen`: the same cut as the chat display's; with fewer than
     * five pieces the indexing fails and the buffer stays as it was.
     */
    method DeleteForRegen(d: Delims) returns (ok: bool)
      modifies this
      ensures var pieces := SplitAll(old(raw), d, false);
        && (ok <==> |pieces| > 4)
        && (ok ==> raw == RegenKept(pieces))
        && (!ok ==> raw == old(raw))
    {
      var pieces := SplitAll(raw, d, false);
      if |pieces| <= 4 {
        ok := false;
        return;
      }
      var kept := pieces[..|pieces| - 4];
      kept := kept[|kept| - 1 := DropLast(kept[|kept| - 1], 2)];
      assert kept == pieces[..|pieces| - 5] + [DropLast(pieces[|pieces| - 5], 2)];
      ConcatAppend(pieces[..|pieces| - 5], [DropLast(pieces[|pieces| - 5], 2)]);
      ConcatSingle(DropLast(pieces[|pieces| - 5], 2));
      raw := "";
      DisplayText(Concat(kept), "");
      ok := true;
    }
  }
}
