/**
 * The flat-text transcript protocol: one string of the form
 * `user: ... assistant: ... system: ...`, cut into pieces by
 * `re.split("(U|A|S)", text, flags=re.IGNORECASE)`.
 *
 * The three markers are literal tokens ending in ':' (the settings value with a
 * colon appended). The regular expression engine scans left to right; at each
 * position it tries the user marker, then the assistant marker, then the
 * system marker, and takes the first that matches. The matched text (in the
 * buffer's own case) is kept as a piece of its own.
 */
module Transcript {
  import opened Wrappers
  import opened Text

  /** A marker token: never empty, always ending in ':'. */
  type Delim = s: string | |s| > 0 && s[|s| - 1] == ':' witness ":"

  /** The `delims` dictionary with its three keys. */
  datatype Delims = Delims(user: Delim, assistant: Delim, system: Delim)

  /** Only the final character is a colon, and there is no line break. */
  predicate WellFormedDelim(p: string) {
    forall k :: 0 <= k < |p| ==> p[k] != '\n' && (p[k] == ':' <==> k == |p| - 1)
  }

  predicate WellFormed(d: Delims) {
    WellFormedDelim(d.user) && WellFormedDelim(d.assistant) && WellFormedDelim(d.system)
  }

  /** Character comparison, folding ASCII case when `ignoreCase` is set. */
  predicate CharEq(a: char, b: char, ignoreCase: bool) {
    a == b || (ignoreCase && Lower(a) == Lower(b))
  }

  /** The literal `pat` occurs in `s` starting at position `i`. */
  predicate OccursAt(s: string, i: nat, pat: string, ignoreCase: bool)
    decreases |pat|
  {
    if pat == [] then i <= |s|
    else i < |s| && CharEq(s[i], pat[0], ignoreCase) && OccursAt(s, i + 1, pat[1..], ignoreCase)
  }

  /** An occurrence lies inside the text and agrees with the pattern character by character. */
  lemma {:induction false} OccursAtChars(s: string, i: nat, pat: string, ignoreCase: bool)
    ensures OccursAt(s, i, pat, ignoreCase)
            <==> i + |pat| <= |s| && forall k :: 0 <= k < |pat| ==> CharEq(s[i + k], pat[k], ignoreCase)
    decreases |pat|
  {
    if pat != [] {
      OccursAtChars(s, i + 1, pat[1..], ignoreCase);
      if i + |pat| <= |s| && forall k :: 0 <= k < |pat| ==> CharEq(s[i + k], pat[k], ignoreCase) {
        assert CharEq(s[i + 0], pat[0], ignoreCase);
        forall k | 0 <= k < |pat[1..]| ensures CharEq(s[i + 1 + k], pat[1..][k], ignoreCase) {
          assert s[i + 1 + k] == s[i + (k + 1)];
        }
      }
      if OccursAt(s, i, pat, ignoreCase) {
        forall k | 0 <= k < |pat| ensures CharEq(s[i + k], pat[k], ignoreCase) {
          if k > 0 {
            assert pat[k] == pat[1..][k - 1];
            assert s[i + k] == s[i + 1 + (k - 1)];
          }
        }
      }
    }
  }

  lemma {:induction false} OccursAtBound(s: string, i: nat, pat: string, ignoreCase: bool)
    requires OccursAt(s, i, pat, ignoreCase)
    ensures i + |pat| <= |s|
  {
    OccursAtChars(s, i, pat, ignoreCase);
  }

  /** The length of the alternative the engine takes at `i`, trying user, assistant, system in turn. */
  function MarkerLen(s: string, i: nat, d: Delims, ignoreCase: bool): (r: Option<nat>)
    ensures r.Some? ==> 0 < r.value && i + r.value <= |s|
  {
    if OccursAt(s, i, d.user, ignoreCase) then OccursAtBound(s, i, d.user, ignoreCase); Some(|d.user|)
    else if OccursAt(s, i, d.assistant, ignoreCase) then
      OccursAtBound(s, i, d.assistant, ignoreCase); Some(|d.assistant|)
    else if OccursAt(s, i, d.system, ignoreCase) then OccursAtBound(s, i, d.system, ignoreCase); Some(|d.system|)
    else None
  }

  /** The leftmost position at or after `i` where a marker matches. */
  function NextMatch(s: string, i: nat, d: Delims, ignoreCase: bool): (r: Option<nat>)
    requires i <= |s|
    ensures r.Some? ==> i <= r.value < |s| && MarkerLen(s, r.value, d, ignoreCase).Some?
    decreases |s| - i
  {
    if i == |s| then None
    else if MarkerLen(s, i, d, ignoreCase).Some? then Some(i)
    else NextMatch(s, i + 1, d, ignoreCase)
  }

  /** Nothing matches between `i` and the match `NextMatch` finds (or the end of the text). */
  lemma {:induction false} NextMatchIsFirst(s: string, i: nat, d: Delims, ignoreCase: bool)
    requires i <= |s|
    ensures forall j :: i <= j < (match NextMatch(s, i, d, ignoreCase) case Some(n) => n case None => |s|)
                        ==> MarkerLen(s, j, d, ignoreCase).None?
    decreases |s| - i
  {
    if i < |s| && MarkerLen(s, i, d, ignoreCase).None? {
      NextMatchIsFirst(s, i + 1, d, ignoreCase);
    }
  }

  /** The first match found from `i` on is the one at `q` when nothing matches in between. */
  lemma {:induction false} NextMatchIs(s: string, i: nat, q: nat, d: Delims, ignoreCase: bool)
    requires i <= q < |s| && MarkerLen(s, q, d, ignoreCase).Some?
    requires forall j :: i <= j < q ==> MarkerLen(s, j, d, ignoreCase).None?
    ensures NextMatch(s, i, d, ignoreCase) == Some(q)
  {
    NextMatchIsFirst(s, i, d, ignoreCase);
  }

  /** The pieces of `s` from a match at `j` on: marker, content, marker, content, ... */
  function PiecesFrom(s: string, j: nat, d: Delims, ignoreCase: bool): (r: seq<string>)
    requires j < |s| && MarkerLen(s, j, d, ignoreCase).Some?
    decreases |s| - j
  {
    var e := j + MarkerLen(s, j, d, ignoreCase).value;
    match NextMatch(s, e, d, ignoreCase)
    case None => [s[j..e], s[e..]]
    case Some(n) => [s[j..e], s[e..n]] + PiecesFrom(s, n, d, ignoreCase)
  }

  /** `re.split` with a capturing group: the text before the first match, then markers and contents. */
  function SplitAll(s: string, d: Delims, ignoreCase: bool): seq<string> {
    match NextMatch(s, 0, d, ignoreCase)
    case None => [s]
    case Some(j) => [s[..j]] + PiecesFrom(s, j, d, ignoreCase)
  }

  /** `splitText`: the case-insensitive split without the text before the first marker. */
  function SplitText(text: string, d: Delims): seq<string> {
    SplitAll(text, d, true)[1..]
  }

  /** A piece that is a marker: the alternative the engine takes at its start spans all of it. */
  predicate IsMarker(m: string, d: Delims, ignoreCase: bool) {
    MarkerLen(m, 0, d, ignoreCase) == Some(|m|)
  }

  /** A piece in which no marker starts. */
  predicate NoMarker(c: string, d: Delims, ignoreCase: bool) {
    forall i :: 0 <= i < |c| ==> MarkerLen(c, i, d, ignoreCase).None?
  }

  // ---------------------------------------------------------------------
  // Occurrences in slices and after a prefix
  // ---------------------------------------------------------------------

  lemma {:induction false} OccursInSlice(s: string, a: nat, b: nat, i: nat, p: string, ignoreCase: bool)
    requires a <= b <= |s|
    ensures OccursAt(s[a..b], i, p, ignoreCase) ==> OccursAt(s, a + i, p, ignoreCase)
    ensures a + i + |p| <= b ==> (OccursAt(s[a..b], i, p, ignoreCase) <==> OccursAt(s, a + i, p, ignoreCase))
  {
    OccursAtChars(s[a..b], i, p, ignoreCase);
    OccursAtChars(s, a + i, p, ignoreCase);
    if a + i + |p| <= b {
      forall m | i <= m < i + |p| ensures s[a..b][m] == s[a + m] { }
    }
  }

  /** A marker inside a slice is a marker of the whole text; a whole-text match inside the slice is one there. */
  lemma {:induction false} MarkerInSlice(s: string, a: nat, b: nat, i: nat, d: Delims, ignoreCase: bool)
    requires a <= b <= |s|
    ensures MarkerLen(s[a..b], i, d, ignoreCase).Some? ==> MarkerLen(s, a + i, d, ignoreCase).Some?
    ensures MarkerLen(s, a + i, d, ignoreCase).Some? && a + i + MarkerLen(s, a + i, d, ignoreCase).value <= b
            ==> MarkerLen(s[a..b], i, d, ignoreCase) == MarkerLen(s, a + i, d, ignoreCase)
  {
    OccursInSlice(s, a, b, i, d.user, ignoreCase);
    OccursInSlice(s, a, b, i, d.assistant, ignoreCase);
    OccursInSlice(s, a, b, i, d.system, ignoreCase);
  }

  /** A slice lying between matches holds no marker. */
  lemma {:induction false} SliceWithoutMatch(s: string, a: nat, b: nat, d: Delims, ignoreCase: bool)
    requires a <= b <= |s|
    requires forall j :: a <= j < b ==> MarkerLen(s, j, d, ignoreCase).None?
    ensures NoMarker(s[a..b], d, ignoreCase)
  {
    forall i | 0 <= i < b - a ensures MarkerLen(s[a..b], i, d, ignoreCase).None? {
      MarkerInSlice(s, a, b, i, d, ignoreCase);
    }
  }

  /** The marker cut out at a match is a marker piece in its own right. */
  lemma {:induction false} MatchIsMarker(s: string, j: nat, d: Delims, ignoreCase: bool)
    requires j < |s| && MarkerLen(s, j, d, ignoreCase).Some?
    ensures IsMarker(s[j..j + MarkerLen(s, j, d, ignoreCase).value], d, ignoreCase)
  {
    var e := j + MarkerLen(s, j, d, ignoreCase).value;
    MarkerInSlice(s, j, e, 0, d, ignoreCase);
  }

  lemma {:induction false} OccursShift(p: string, t: string, i: nat, pat: string, ignoreCase: bool)
    ensures OccursAt(p + t, |p| + i, pat, ignoreCase) <==> OccursAt(t, i, pat, ignoreCase)
  {
    OccursAtChars(p + t, |p| + i, pat, ignoreCase);
    OccursAtChars(t, i, pat, ignoreCase);
    if i + |pat| <= |t| {
      forall m | i <= m < i + |pat| ensures (p + t)[|p| + m] == t[m] { }
    }
  }

  /** What matches after a prefix is what matches in the rest of the text. */
  lemma {:induction false} MarkerLenShift(p: string, t: string, i: nat, d: Delims, ignoreCase: bool)
    ensures MarkerLen(p + t, |p| + i, d, ignoreCase) == MarkerLen(t, i, d, ignoreCase)
  {
    OccursShift(p, t, i, d.user, ignoreCase);
    OccursShift(p, t, i, d.assistant, ignoreCase);
    OccursShift(p, t, i, d.system, ignoreCase);
  }

  // ---------------------------------------------------------------------
  // The partition law
  // ---------------------------------------------------------------------

  /** Markers at the even positions and marker-free text at the odd ones, in pairs. */
  predicate Alternating(r: seq<string>, d: Delims, ignoreCase: bool)
    decreases |r|
  {
    r == [] || (|r| >= 2 && IsMarker(r[0], d, ignoreCase) && NoMarker(r[1], d, ignoreCase)
                && Alternating(r[2..], d, ignoreCase))
  }

  lemma {:induction false} EvenPlusTwo(n: nat)
    requires n % 2 == 0
    ensures (n + 2) % 2 == 0
  {
  }

  /** An alternating list has even length, with markers exactly at the even indices. */
  lemma {:induction false} AlternatingAt(r: seq<string>, d: Delims, ignoreCase: bool)
    requires Alternating(r, d, ignoreCase)
    ensures |r| % 2 == 0
    ensures forall k :: 0 <= k < |r| ==> if k % 2 == 0 then IsMarker(r[k], d, ignoreCase) else NoMarker(r[k], d, ignoreCase)
    decreases |r|
  {
    if r != [] {
      var rest := r[2..];
      AlternatingAt(rest, d, ignoreCase);
      EvenPlusTwo(|rest|);
      forall k | 2 <= k < |r|
        ensures if k % 2 == 0 then IsMarker(r[k], d, ignoreCase) else NoMarker(r[k], d, ignoreCase)
      {
        assert r[k] == rest[k - 2];
        assert k % 2 == (k - 2) % 2;
      }
    }
  }

  lemma {:induction false} PiecesFromUnfold(s: string, j: nat, d: Delims, ignoreCase: bool)
    requires j < |s| && MarkerLen(s, j, d, ignoreCase).Some?
    ensures var e := j + MarkerLen(s, j, d, ignoreCase).value;
      e <= |s| &&
      match NextMatch(s, e, d, ignoreCase)
      case None => PiecesFrom(s, j, d, ignoreCase) == [s[j..e], s[e..]]
      case Some(n) => e <= n < |s| && MarkerLen(s, n, d, ignoreCase).Some?
                      && PiecesFrom(s, j, d, ignoreCase) == [s[j..e], s[e..n]] + PiecesFrom(s, n, d, ignoreCase)
  {
    var e := j + MarkerLen(s, j, d, ignoreCase).value;
    var next := NextMatch(s, e, d, ignoreCase);
    if next.Some? {
      var n := next.value;
      assert PiecesFrom(s, j, d, ignoreCase) == [s[j..e], s[e..n]] + PiecesFrom(s, n, d, ignoreCase);
    }
  }

  lemma {:induction false} JoinLast(s: string, j: nat, e: nat)
    requires j <= e <= |s|
    ensures Concat([s[j..e], s[e..]]) == s[j..]
  {
    ConcatPair(s[j..e], s[e..]);
    assert s[j..] == s[j..e] + s[e..];
  }

  lemma {:induction false} JoinStep(s: string, j: nat, e: nat, n: nat, rest: seq<string>)
    requires j <= e <= n <= |s| && Concat(rest) == s[n..]
    ensures Concat([s[j..e], s[e..n]] + rest) == s[j..]
  {
    ConcatAppend([s[j..e], s[e..n]], rest);
    ConcatPair(s[j..e], s[e..n]);
    assert s[j..] == s[j..e] + s[e..n] + s[n..];
  }

  /** The pieces from a match on join to the rest of the text. */
  lemma {:induction false} PiecesFromConcat(s: string, j: nat, d: Delims, ignoreCase: bool)
    requires j < |s| && MarkerLen(s, j, d, ignoreCase).Some?
    ensures Concat(PiecesFrom(s, j, d, ignoreCase)) == s[j..]
    decreases |s| - j
  {
    var e := j + MarkerLen(s, j, d, ignoreCase).value;
    PiecesFromUnfold(s, j, d, ignoreCase);
    match NextMatch(s, e, d, ignoreCase)
    case None =>
      JoinLast(s, j, e);
    case Some(n) =>
      PiecesFromConcat(s, n, d, ignoreCase);
      JoinStep(s, j, e, n, PiecesFrom(s, n, d, ignoreCase));
  }

  /** The pieces from a match on alternate between markers and marker-free text. */
  lemma {:induction false} PiecesFromAlternate(s: string, j: nat, d: Delims, ignoreCase: bool)
    requires j < |s| && MarkerLen(s, j, d, ignoreCase).Some?
    ensures Alternating(PiecesFrom(s, j, d, ignoreCase), d, ignoreCase)
    decreases |s| - j
  {
    var e := j + MarkerLen(s, j, d, ignoreCase).value;
    var m := s[j..e];
    MatchIsMarker(s, j, d, ignoreCase);
    assert IsMarker(m, d, ignoreCase);
    PiecesFromUnfold(s, j, d, ignoreCase);
    NextMatchIsFirst(s, e, d, ignoreCase);
    match NextMatch(s, e, d, ignoreCase)
    case None =>
      SliceWithoutMatch(s, e, |s|, d, ignoreCase);
      assert s[e..|s|] == s[e..];
      AlternatingCons(m, s[e..], [], d, ignoreCase);
      assert [m, s[e..]] + [] == PiecesFrom(s, j, d, ignoreCase);
    case Some(n) =>
      SliceWithoutMatch(s, e, n, d, ignoreCase);
      PiecesFromAlternate(s, n, d, ignoreCase);
      AlternatingCons(m, s[e..n], PiecesFrom(s, n, d, ignoreCase), d, ignoreCase);
  }

  /** A marker and a marker-free piece in front of alternating pieces keep them alternating. */
  lemma {:induction false} AlternatingCons(m: string, c: string, rest: seq<string>, d: Delims, ignoreCase: bool)
    requires IsMarker(m, d, ignoreCase) && NoMarker(c, d, ignoreCase) && Alternating(rest, d, ignoreCase)
    ensures Alternating([m, c] + rest, d, ignoreCase)
  {
    assert ([m, c] + rest)[2..] == rest;
  }

  /**
   * `re.split` partitions the text: the pieces joined give the text back; the first piece
   * holds no marker, and after it markers and marker-free text alternate in pairs.
   */
  lemma {:induction false} SplitAllPartition(s: string, d: Delims, ignoreCase: bool)
    ensures |SplitAll(s, d, ignoreCase)| >= 1
    ensures Concat(SplitAll(s, d, ignoreCase)) == s
    ensures NoMarker(SplitAll(s, d, ignoreCase)[0], d, ignoreCase)
    ensures Alternating(SplitAll(s, d, ignoreCase)[1..], d, ignoreCase)
  {
    NextMatchIsFirst(s, 0, d, ignoreCase);
    var r := SplitAll(s, d, ignoreCase);
    match NextMatch(s, 0, d, ignoreCase)
    case None =>
      assert r == [s];
      SliceWithoutMatch(s, 0, |s|, d, ignoreCase);
      assert s[0..|s|] == s;
      ConcatSingle(s);
      assert r[1..] == [];
    case Some(j) =>
      var rest := PiecesFrom(s, j, d, ignoreCase);
      assert r == [s[..j]] + rest;
      SliceWithoutMatch(s, 0, j, d, ignoreCase);
      assert s[0..j] == s[..j];
      PiecesFromConcat(s, j, d, ignoreCase);
      PiecesFromAlternate(s, j, d, ignoreCase);
      ConcatCons(s[..j], rest);
      assert r[1..] == rest;
      assert s == s[..j] + s[j..];
  }

  /**
   * The law of `splitText`: the dropped leading text followed by the returned pieces is
   * the input; the list has even length; its even positions are markers (case-insensitive
   * occurrences of a delimiter) and its odd positions hold none.
   */
  lemma {:induction false} SplitTextPartition(text: string, d: Delims)
    ensures SplitAll(text, d, true)[0] + Concat(SplitText(text, d)) == text
    ensures Alternating(SplitText(text, d), d, true)
    ensures |SplitText(text, d)| % 2 == 0
    ensures forall k :: 0 <= k < |SplitText(text, d)| ==>
              if k % 2 == 0 then IsMarker(SplitText(text, d)[k], d, true) else NoMarker(SplitText(text, d)[k], d, true)
  {
    SplitAllPartition(text, d, true);
    SplitTextJoin(text, d);
    AlternatingAt(SplitAll(text, d, true)[1..], d, true);
  }

  /** The joining half of the partition law on its own. */
  lemma {:induction false} SplitTextJoin(text: string, d: Delims)
    ensures SplitAll(text, d, true)[0] + Concat(SplitText(text, d)) == text
  {
    var all := SplitAll(text, d, true);
    SplitAllPartition(text, d, true);
    assert all == [all[0]] + all[1..];
    ConcatCons(all[0], all[1..]);
  }

  /** `splitText` is empty exactly when no marker occurs anywhere in the text. */
  lemma {:induction false} SplitTextEmpty(text: string, d: Delims)
    ensures SplitText(text, d) == [] <==> NextMatch(text, 0, d, true).None?
  {
    match NextMatch(text, 0, d, true)
    case None =>
    case Some(j) =>
      PiecesFromUnfold(text, j, d, true);
  }

  /** A text that begins with a marker loses nothing to the split. */
  lemma {:induction false} SplitTextOfMarkerStart(text: string, d: Delims)
    requires |text| > 0 && MarkerLen(text, 0, d, true).Some?
    ensures SplitAll(text, d, true)[0] == ""
    ensures SplitText(text, d) == PiecesFrom(text, 0, d, true)
  {
  }

  // ---------------------------------------------------------------------
  // Facts that rely on well-formed markers
  // ---------------------------------------------------------------------

  lemma {:induction false} CharEqColon(c: char, x: char, ignoreCase: bool)
    requires x == ':' || x == '\n'
    ensures CharEq(c, x, ignoreCase) <==> c == x
    ensures CharEq(x, c, ignoreCase) <==> c == x
  {
    LowerFixesNonLetters(c, x);
  }

  /** Any marker that matches at the start of the system marker's text is exactly as long. */
  lemma {:induction false} AlignedWithSystem(s: string, p: string, system: string, ignoreCase: bool)
    requires WellFormedDelim(p) && WellFormedDelim(system)
    requires |p| > 0 && p[|p| - 1] == ':' && |system| > 0 && system[|system| - 1] == ':'
    requires StartsWith(s, system) && OccursAt(s, 0, p, ignoreCase)
    ensures |p| == |system|
  {
    OccursAtChars(s, 0, p, ignoreCase);
    // The colon ending the shorter of the two sits where the longer has its only colon.
    var k := |p| - 1;
    if k < |system| {
      assert s[k] == system[k];
      assert CharEq(s[0 + k], p[k], ignoreCase);
      CharEqColon(s[k], p[k], ignoreCase);
    }
    var j := |system| - 1;
    if j < |p| {
      assert s[j] == system[j];
      assert CharEq(s[0 + j], p[j], ignoreCase);
      CharEqColon(p[j], s[j], ignoreCase);
    }
  }

  /** A text that starts with the system marker splits off exactly that marker first. */
  lemma {:induction false} SystemStart(s: string, d: Delims, ignoreCase: bool)
    requires WellFormed(d) && StartsWith(s, d.system)
    ensures MarkerLen(s, 0, d, ignoreCase) == Some(|d.system|)
    ensures NextMatch(s, 0, d, ignoreCase) == Some(0)
  {
    assert OccursAt(s, 0, d.system, ignoreCase) by {
      OccursAtChars(s, 0, d.system, ignoreCase);
      forall k | 0 <= k < |d.system| ensures CharEq(s[0 + k], d.system[k], ignoreCase) {
        assert s[..|d.system|][k] == s[k];
      }
    }
    if OccursAt(s, 0, d.user, ignoreCase) {
      AlignedWithSystem(s, d.user, d.system, ignoreCase);
    } else if OccursAt(s, 0, d.assistant, ignoreCase) {
      AlignedWithSystem(s, d.assistant, d.system, ignoreCase);
    }
  }

  /**
   * No marker starts in a stretch without colons that ends in a line break: a marker
   * ends in its only colon, and it cannot run across the line break.
   */
  lemma {:induction false} NoMarkerInColonFreeLine(s: string, a: nat, b: nat, d: Delims, ignoreCase: bool)
    requires WellFormed(d) && a < b <= |s| && s[b - 1] == '\n'
    requires forall k :: a <= k < b ==> s[k] != ':'
    ensures forall i :: a <= i < b ==> MarkerLen(s, i, d, ignoreCase).None?
  {
    forall i | a <= i < b ensures MarkerLen(s, i, d, ignoreCase).None? {
      NoDelimInColonFreeLine(s, a, b, i, d.user, ignoreCase);
      NoDelimInColonFreeLine(s, a, b, i, d.assistant, ignoreCase);
      NoDelimInColonFreeLine(s, a, b, i, d.system, ignoreCase);
    }
  }

  lemma {:induction false} NoDelimInColonFreeLine(s: string, a: nat, b: nat, i: nat, p: Delim, ignoreCase: bool)
    requires WellFormedDelim(p) && a <= i < b <= |s| && s[b - 1] == '\n'
    requires forall k :: a <= k < b ==> s[k] != ':'
    ensures !OccursAt(s, i, p, ignoreCase)
  {
    if OccursAt(s, i, p, ignoreCase) {
      OccursAtChars(s, i, p, ignoreCase);
      var last := |p| - 1;
      if i + last < b {
        assert false;
      } else {
        var k := b - 1 - i;
        assert k < |p|;
        CharEqColon(p[k], s[b - 1], ignoreCase);
        assert false;
      }
    }
  }
}
