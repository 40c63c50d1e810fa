/**
 * The chat display: the raw text buffer the window shows, the edits the
 * worker's output makes to it, the cut made before a regeneration, and the
 * positions (in UTF-16 code units, as Qt counts them) of the coloured role
 * markers.
 */
module ChatDisplay {
  import opened Wrappers
  import opened Text
  import opened Transcript

  // ---------------------------------------------------------------------
  // UTF-16 positions
  // ---------------------------------------------------------------------

  /** Code units of one code point in UTF-16: a surrogate pair above U+FFFF. */
  function Utf16Units(c: char): nat {
    if c as int > 0xFFFF then 2 else 1
  }

  /** `len(s.encode("utf-16-le")) // 2`: the UTF-16 length of `s`. */
  function Utf16Len(s: string): (r: nat)
    ensures |s| <= r <= 2 * |s|
  {
    if s == [] then 0 else Utf16Len(s[..|s| - 1]) + Utf16Units(s[|s| - 1])
  }

  /** Every code point lies in the Basic Multilingual Plane. */
  predicate AllBmp(s: string) {
    forall k :: 0 <= k < |s| ==> s[k] as int <= 0xFFFF
  }

  /** UTF-16 and code-point lengths agree exactly when no code point needs a surrogate pair. */
  lemma {:induction false} Utf16LenBmp(s: string)
    ensures Utf16Len(s) == |s| <==> AllBmp(s)
    decreases |s|
  {
    if s != [] {
      var init := s[..|s| - 1];
      Utf16LenBmp(init);
      if AllBmp(s) {
        assert forall k :: 0 <= k < |init| ==> init[k] == s[k];
      }
      if Utf16Len(s) == |s| {
        assert Utf16Len(init) == |init|;
        forall k | 0 <= k < |s| ensures s[k] as int <= 0xFFFF {
          if k < |init| {
            assert init[k] == s[k];
          }
        }
      }
    }
  }

  /** `py_to_qt_index(s, i)`: the UTF-16 length of `s[:i]` (a slice past the end stops there). */
  function QtIndex(s: string, i: nat): (r: nat)
    ensures var k := if i <= |s| then i else |s|; k <= r <= 2 * k
  {
    Utf16Len(s[..if i <= |s| then i else |s|])
  }

  lemma {:induction false} QtIndexStep(s: string, i: nat)
    requires i < |s|
    ensures QtIndex(s, i + 1) == QtIndex(s, i) + Utf16Units(s[i])
  {
    assert s[..i + 1][..i] == s[..i];
  }

  /** Positions only grow, and strictly so inside the text. */
  lemma {:induction false} QtIndexMonotone(s: string, i: nat, j: nat)
    requires i <= j
    ensures QtIndex(s, i) <= QtIndex(s, j)
    ensures i < j <= |s| ==> QtIndex(s, i) < QtIndex(s, j)
    decreases j - i
  {
    if i < j {
      if j <= |s| {
        QtIndexMonotone(s, i, j - 1);
        QtIndexStep(s, j - 1);
      } else if i <= |s| {
        QtIndexMonotone(s, i, |s|);
      }
    }
  }

  /** The end of the text is at its full UTF-16 length. */
  lemma {:induction false} QtIndexEnd(s: string)
    ensures QtIndex(s, |s|) == Utf16Len(s)
  {
    assert s[..|s|] == s;
  }

  // ---------------------------------------------------------------------
  // Marker matches and their colours
  // ---------------------------------------------------------------------

  /** A match of `finditer`: its start and end positions. */
  datatype Found = Found(start: nat, end: nat)

  /** `finditer` over the markers from `i` on: leftmost matches, each search resuming after the last. */
  function FindAll(s: string, i: nat, d: Delims): seq<Found>
    requires i <= |s|
    decreases |s| - i
  {
    match NextMatch(s, i, d, true)
    case None => []
    case Some(j) =>
      var e := j + MarkerLen(s, j, d, true).value;
      [Found(j, e)] + FindAll(s, e, d)
  }

  /** Matches in increasing, non-overlapping order, each inside a text of length `n`. */
  predicate InOrder(ms: seq<Found>, n: nat) {
    && (forall k :: 0 <= k < |ms| ==> ms[k].start < ms[k].end <= n)
    && (forall k :: 0 <= k < |ms| - 1 ==> ms[k].end <= ms[k + 1].start)
  }

  /** Each match spans the alternative the engine takes at its start. */
  predicate AreMarkers(ms: seq<Found>, s: string, i: nat, d: Delims) {
    forall k :: 0 <= k < |ms| ==>
      i <= ms[k].start && MarkerLen(s, ms[k].start, d, true) == Some(ms[k].end - ms[k].start)
  }

  /** The matches lie in order in the text, each spanning the alternative taken at its start. */
  lemma {:induction false} FindAllInOrder(s: string, i: nat, d: Delims)
    requires i <= |s|
    ensures InOrder(FindAll(s, i, d), |s|) && AreMarkers(FindAll(s, i, d), s, i, d)
    decreases |s| - i
  {
    match NextMatch(s, i, d, true)
    case None =>
    case Some(j) =>
      var e := j + MarkerLen(s, j, d, true).value;
      var rest := FindAll(s, e, d);
      FindAllInOrder(s, e, d);
      FindAllCons(s, i, d, j, e, rest);
  }

  lemma {:induction false} FindAllCons(s: string, i: nat, d: Delims, j: nat, e: nat, rest: seq<Found>)
    requires i <= j < e <= |s| && MarkerLen(s, j, d, true) == Some(e - j)
    requires InOrder(rest, |s|) && AreMarkers(rest, s, e, d)
    ensures InOrder([Found(j, e)] + rest, |s|) && AreMarkers([Found(j, e)] + rest, s, i, d)
  {
    var ms := [Found(j, e)] + rest;
    assert forall k :: 1 <= k < |ms| ==> ms[k] == rest[k - 1];
    InOrderCons(Found(j, e), rest, |s|);
  }

  lemma {:induction false} InOrderCons(m: Found, rest: seq<Found>, n: nat)
    requires m.start < m.end <= n && InOrder(rest, n) && (|rest| > 0 ==> m.end <= rest[0].start)
    ensures InOrder([m] + rest, n)
  {
    var ms := [m] + rest;
    assert forall k :: 1 <= k < |ms| ==> ms[k] == rest[k - 1];
  }

  /** Where the search after the `k`-th match stops: the next match, or the end of the text. */
  function NextStart(ms: seq<Found>, k: int, s: string): nat {
    if 0 <= k + 1 < |ms| then ms[k + 1].start else |s|
  }

  /** No marker starts before the first match from `i` on, nor in a gap between two. */
  lemma {:induction false} FindAllLeavesNoGap(s: string, i: nat, d: Delims)
    requires i <= |s|
    ensures var ms := FindAll(s, i, d);
      && (forall p :: i <= p < NextStart(ms, -1, s) ==> MarkerLen(s, p, d, true).None?)
      && (forall k, p :: 0 <= k < |ms| && ms[k].end <= p < NextStart(ms, k, s) ==> MarkerLen(s, p, d, true).None?)
    decreases |s| - i
  {
    NextMatchIsFirst(s, i, d, true);
    match NextMatch(s, i, d, true)
    case None =>
      assert FindAll(s, i, d) == [];
    case Some(j) =>
      var e := j + MarkerLen(s, j, d, true).value;
      var rest := FindAll(s, e, d);
      assert FindAll(s, i, d) == [Found(j, e)] + rest;
      FindAllLeavesNoGap(s, e, d);
      NoGapCons(s, i, d, j, e, rest);
  }

  lemma {:induction false} NoGapCons(s: string, i: nat, d: Delims, j: nat, e: nat, rest: seq<Found>)
    requires i <= j < e <= |s|
    requires forall p :: i <= p < j ==> MarkerLen(s, p, d, true).None?
    requires forall p :: e <= p < NextStart(rest, -1, s) ==> MarkerLen(s, p, d, true).None?
    requires forall k, p :: 0 <= k < |rest| && rest[k].end <= p < NextStart(rest, k, s) ==> MarkerLen(s, p, d, true).None?
    ensures var ms := [Found(j, e)] + rest;
      && (forall p :: i <= p < NextStart(ms, -1, s) ==> MarkerLen(s, p, d, true).None?)
      && (forall k, p :: 0 <= k < |ms| && ms[k].end <= p < NextStart(ms, k, s) ==> MarkerLen(s, p, d, true).None?)
  {
    var ms := [Found(j, e)] + rest;
    assert forall k :: 1 <= k < |ms| ==> ms[k] == rest[k - 1];
    assert forall k :: 0 <= k < |ms| ==> NextStart(ms, k, s) == NextStart(rest, k - 1, s);
  }

  /** The colours of the role markers. */
  datatype Colour = Blue | Green | Gray

  /** The colour of a matched marker: the first delimiter it contains decides. */
  function RoleColour(roleText: string, d: Delims): Colour {
    if Contains(roleText, d.user) then Blue
    else if Contains(roleText, d.assistant) then Green
    else Gray
  }

  /** In lower-cased text, a case-insensitive occurrence of a lower-case delimiter is a literal one. */
  lemma {:induction false} MatchedTextIsDelim(s: string, j: nat, p: string)
    requires LowerCase(s) && LowerCase(p) && OccursAt(s, j, p, true)
    ensures j + |p| <= |s| && s[j..j + |p|] == p
  {
    OccursAtChars(s, j, p, true);
    forall k | 0 <= k < |p| ensures s[j..j + |p|][k] == p[k] {
      assert CharEq(s[j + k], p[k], true);
      assert Lower(s[j + k]) == s[j + k];
      assert Lower(p[k]) == p[k];
    }
  }

  /**
   * With lower-case delimiters, a marker matched as the user delimiter is
   * coloured blue, and one matched as the assistant delimiter green unless
   * the assistant delimiter contains the user one.
   */
  lemma {:induction false} MatchColour(text: string, m: Found, d: Delims)
    requires LowerCase(d.user) && LowerCase(d.assistant)
    requires m.start < m.end <= |text| && MarkerLen(LowerStr(text), m.start, d, true) == Some(m.end - m.start)
    ensures var ls := LowerStr(text); var role := LowerStr(ls[m.start..m.end]);
      && (OccursAt(ls, m.start, d.user, true) ==> RoleColour(role, d) == Blue)
      && ((!OccursAt(ls, m.start, d.user, true) && OccursAt(ls, m.start, d.assistant, true)
           && !Contains(d.assistant, d.user)) ==> RoleColour(role, d) == Green)
  {
    var ls := LowerStr(text);
    LowerStrIsLowerCase(text);
    var seg := ls[m.start..m.end];
    assert LowerCase(seg) by {
      forall k | 0 <= k < |seg| ensures !('A' <= seg[k] <= 'Z') {
        assert seg[k] == ls[m.start + k];
      }
    }
    LowerStrOfLowerCase(seg);
    if OccursAt(ls, m.start, d.user, true) {
      MatchedTextIsDelim(ls, m.start, d.user);
      ContainsSelf(d.user);
    } else if OccursAt(ls, m.start, d.assistant, true) {
      MatchedTextIsDelim(ls, m.start, d.assistant);
    }
  }

  /** A coloured stretch of the display, in UTF-16 positions. */
  datatype Span = Span(start: nat, end: nat, colour: Colour)

  /** The colour of the `k`-th match, found in the lower-cased text. */
  function MatchColourAt(text: string, ms: seq<Found>, k: nat, d: Delims): Colour
    requires k < |ms| && ms[k].start <= ms[k].end <= |text|
  {
    RoleColour(LowerStr(LowerStr(text)[ms[k].start..ms[k].end]), d)
  }

  /** The matches of the markers in the lower-cased text. */
  function Matches(text: string, d: Delims): (ms: seq<Found>)
    ensures InOrder(ms, |text|)
  {
    FindAllInOrder(LowerStr(text), 0, d);
    FindAll(LowerStr(text), 0, d)
  }

  /** The spans the display colours for given matches: each match but its last character. */
  function SpansFor(text: string, ms: seq<Found>, d: Delims): seq<Span>
    requires InOrder(ms, |text|)
  {
    seq(|ms|, k requires 0 <= k < |ms| =>
      Span(QtIndex(text, ms[k].start), QtIndex(text, ms[k].end - 1), MatchColourAt(text, ms, k, d)))
  }

  /** `recolour_text` of the chat display. */
  function MarkerSpans(text: string, d: Delims): seq<Span> {
    SpansFor(text, Matches(text, d), d)
  }

  /**
   * One span per match; each begins where its match does and stops before the
   * match's last character, so the spans are ordered, disjoint and inside the text.
   */
  lemma {:induction false} MarkerSpansOrdered(text: string, d: Delims)
    ensures var ms := Matches(text, d); var sp := MarkerSpans(text, d);
      && |sp| == |ms|
      && (forall k :: 0 <= k < |sp| ==>
            sp[k].start == QtIndex(text, ms[k].start) && sp[k].start <= sp[k].end < Utf16Len(text))
      && (forall k :: 0 <= k < |sp| - 1 ==> sp[k].end < sp[k + 1].start)
  {
    SpansForOrdered(text, Matches(text, d), d);
  }

  lemma {:induction false} SpansForOrdered(text: string, ms: seq<Found>, d: Delims)
    requires InOrder(ms, |text|)
    ensures var sp := SpansFor(text, ms, d);
      && |sp| == |ms|
      && (forall k :: 0 <= k < |sp| ==>
            sp[k].start == QtIndex(text, ms[k].start) && sp[k].start <= sp[k].end < Utf16Len(text))
      && (forall k :: 0 <= k < |sp| - 1 ==> sp[k].end < sp[k + 1].start)
  {
    var sp := SpansFor(text, ms, d);
    forall k | 0 <= k < |sp| ensures sp[k].start <= sp[k].end < Utf16Len(text) {
      SpanWithin(text, ms, k);
    }
    forall k | 0 <= k < |sp| - 1 ensures sp[k].end < sp[k + 1].start {
      SpanBeforeNext(text, ms, k);
    }
  }

  /** The `k`-th match, as Qt positions, starts no later than its last character, which lies inside the text. */
  lemma {:induction false} SpanWithin(text: string, ms: seq<Found>, k: nat)
    requires InOrder(ms, |text|) && k < |ms|
    ensures QtIndex(text, ms[k].start) <= QtIndex(text, ms[k].end - 1) < Utf16Len(text)
  {
    QtIndexEnd(text);
    QtIndexMonotone(text, ms[k].start, ms[k].end - 1);
    QtIndexMonotone(text, ms[k].end - 1, |text|);
  }

  /** The last character of a match comes, as a Qt position, before the start of the next match. */
  lemma {:induction false} SpanBeforeNext(text: string, ms: seq<Found>, k: nat)
    requires InOrder(ms, |text|) && k + 1 < |ms|
    ensures QtIndex(text, ms[k].end - 1) < QtIndex(text, ms[k + 1].start)
  {
    QtIndexMonotone(text, ms[k].end - 1, ms[k + 1].start);
  }

  // ---------------------------------------------------------------------
  // The regeneration cut
  // ---------------------------------------------------------------------

  /**
   * What `deleteForRegen` keeps of the case-sensitive split: all pieces but the
   * last four, the last kept one losing up to two trailing characters.
   */
  function RegenKept(pieces: seq<string>): string
    requires |pieces| > 4
  {
    Concat(pieces[..|pieces| - 5]) + DropLast(pieces[|pieces| - 5], 2)
  }

  /**
   * The kept text is a prefix of the buffer: what goes is the tail of the last
   * kept piece followed by the last two (marker, content) pairs.
   */
  lemma {:induction false} RegenKeptIsPrefix(s: string, d: Delims)
    requires |SplitAll(s, d, false)| > 4
    ensures var p := SplitAll(s, d, false); var n := |p|; var last := p[n - 5];
      && s == RegenKept(p) + last[|DropLast(last, 2)|..] + Concat(p[n - 4..])
      && IsMarker(p[n - 4], d, false) && IsMarker(p[n - 2], d, false)
      && |RegenKept(p)| <= |s| && RegenKept(p) == s[..|RegenKept(p)|]
  {
    SplitAllPartition(s, d, false);
    RegenKeptOf(s, SplitAll(s, d, false), d);
  }

  lemma {:induction false} RegenKeptOf(s: string, p: seq<string>, d: Delims)
    requires |p| > 4 && Concat(p) == s && Alternating(p[1..], d, false)
    ensures var n := |p|; var last := p[n - 5];
      && s == RegenKept(p) + last[|DropLast(last, 2)|..] + Concat(p[n - 4..])
      && IsMarker(p[n - 4], d, false) && IsMarker(p[n - 2], d, false)
      && |RegenKept(p)| <= |s| && RegenKept(p) == s[..|RegenKept(p)|]
  {
    RegenKeptJoin(p);
    var n := |p|;
    var last := p[n - 5];
    var kept := RegenKept(p);
    var rest := last[|DropLast(last, 2)|..];
    AppendAssoc(kept, rest, Concat(p[n - 4..]));
    PrefixOfAppend(kept, rest + Concat(p[n - 4..]));
    var tail := p[1..];
    AlternatingAt(tail, d, false);
    assert p[n - 4] == tail[n - 5] && p[n - 2] == tail[n - 3];
    assert (n - 5) % 2 == 0 && (n - 3) % 2 == 0;
  }

  lemma {:induction false} PrefixOfAppend(a: string, b: string)
    ensures |a| <= |a + b| && (a + b)[..|a|] == a
  {
  }

  /** The pieces join back as the kept text, the dropped characters and the last four pieces. */
  lemma {:induction false} RegenKeptJoin(p: seq<string>)
    requires |p| > 4
    ensures var last := p[|p| - 5];
      Concat(p) == RegenKept(p) + last[|DropLast(last, 2)|..] + Concat(p[|p| - 4..])
  {
    var n := |p|;
    var last := p[n - 5];
    assert p == p[..n - 5] + ([last] + p[n - 4..]);
    ConcatAppend(p[..n - 5], [last] + p[n - 4..]);
    ConcatCons(last, p[n - 4..]);
    assert last == DropLast(last, 2) + last[|DropLast(last, 2)|..];
  }

  // ---------------------------------------------------------------------
  // The display
  // ---------------------------------------------------------------------

  class Display {
    /** The plain text of the raw display. */
    var raw: string

    constructor()
      ensures raw == ""
    {
      raw := "";
    }

    /** `display_text`: insert at the end of the buffer. */
    method DisplayText(text: string, end: string)
      modifies this
      ensures raw == old(raw) + text + end
    {
      raw := raw + text + end;
    }

    /**
     * `chunk`: the opening sentinel writes the assistant marker (on a new
     * paragraph when the raw display has focus), the closing one a new
     * paragraph with the user marker; both ask for a recolour. Any other chunk
     * is written as it is.
     */
    method Chunk(chunk: string, d: Delims, hasFocus: bool) returns (recolour: bool)
      modifies this
      ensures recolour <==> chunk == "assis12" || chunk == "usr12"
      ensures chunk == "assis12" ==> raw == old(raw) + (if hasFocus then "\n\n" else "") + d.assistant + " "
      ensures chunk == "usr12" ==> raw == old(raw) + "\n\n" + d.user + " "
      ensures !recolour ==> raw == old(raw) + chunk
    {
      if chunk == "assis12" {
        if hasFocus {
          DisplayText("\n\n", "");
        }
        DisplayText(d.assistant + " ", "");
        recolour := true;
      } else if chunk == "usr12" {
        DisplayText("\n\n" + d.user + " ", "");
        recolour := true;
      } else {
        DisplayText(chunk, "");
        recolour := false;
      }
    }

    /**
     * `deleteForRegen`: split the buffer case-sensitively, drop the last four
     * pieces and two trailing characters, and show the rest. With fewer than
     * five pieces the list runs empty and the indexing fails before the buffer
     * is cleared.
     */
    method DeleteForRegen(d: Delims) returns (ok: bool)
      modifies this
      ensures var pieces := SplitAll(old(raw), d, false);
        && (ok <==> |pieces| > 4)
        && (ok ==> raw == RegenKept(pieces))
        && (!ok ==> raw == old(raw))
    {
      var pieces := SplitAll(raw, d, false);
      if |pieces| <= 4 {
        ok := false;
        return;
      }
      var kept := pieces[..|pieces| - 4];
      kept := kept[|kept| - 1 := DropLast(kept[|kept| - 1], 2)];
      assert kept == pieces[..|pieces| - 5] + [DropLast(pieces[|pieces| - 5], 2)];
      ConcatAppend(pieces[..|pieces| - 5], [DropLast(pieces[|pieces| - 5], 2)]);
      ConcatSingle(DropLast(pieces[|pieces| - 5], 2));
      raw := "";
      DisplayText(Concat(kept), "");
      ok := true;
    }

    /** `getText`: the buffer without its leading and trailing whitespace. */
    function GetText(): (r: string)
      reads this
      ensures exists i, j :: (0 <= i <= j <= |raw| && r == raw[i..j]
          && AllSpace(raw[..i]) && AllSpace(raw[j..]))
      ensures |r| > 0 ==> !IsSpace(r[0]) && !IsSpace(r[|r| - 1])
    {
      StripIsTrimmedSlice(raw);
      Strip(raw)
    }
  }
}
