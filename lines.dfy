/**
 * The line step of the weather table: `data.split('\r\n')` followed by
 * `.filter(line => line.trim() !== '')`. Only the two-character CR LF
 * sequence separates lines; pieces whose trimmed text is empty are dropped
 * and the others keep their order.
 */
module LineFilter {
  import opened Strings

  /** The line separator the source splits on: carriage return, line feed. */
  const LineBreak: string := "\r\n"

  /**
   * The characters `String.prototype.trim` removes: ECMAScript WhiteSpace
   * (tab, vertical tab, form feed, the byte order mark and the Unicode space
   * separators) and LineTerminator (LF, CR, line and paragraph separator).
   */
  predicate IsJsWhitespace(ch: char)
  {
    || ch == '\t' || ch == '\n' || ch == '\U{B}' || ch == '\U{C}' || ch == '\r'
    || ch == ' ' || ch == '\U{A0}' || ch == '\U{1680}'
    || ('\U{2000}' <= ch <= '\U{200A}')
    || ch == '\U{2028}' || ch == '\U{2029}' || ch == '\U{202F}' || ch == '\U{205F}'
    || ch == '\U{3000}' || ch == '\U{FEFF}'
  }

  /** Every character of `s` is whitespace (the empty text included). */
  ghost predicate Blank(s: string)
  {
    forall i :: 0 <= i < |s| ==> IsJsWhitespace(s[i])
  }

  /** `s` without its leading whitespace: the longest suffix that does not start with whitespace. */
  function TrimStart(s: string): (r: string)
    ensures |r| <= |s| && r == s[|s| - |r|..]
    ensures forall i :: 0 <= i < |s| - |r| ==> IsJsWhitespace(s[i])
    ensures r == [] || !IsJsWhitespace(r[0])
  {
    if s != [] && IsJsWhitespace(s[0]) then TrimStart(s[1..]) else s
  }

  /** `s` without its trailing whitespace: the longest prefix that does not end with whitespace. */
  function TrimEnd(s: string): (r: string)
    ensures |r| <= |s| && r == s[..|r|]
    ensures forall i :: |r| <= i < |s| ==> IsJsWhitespace(s[i])
    ensures r == [] || !IsJsWhitespace(r[|r| - 1])
  {
    if s != [] && IsJsWhitespace(s[|s| - 1]) then TrimEnd(s[..|s| - 1]) else s
  }

  /**
   * `s.trim()`: the contiguous piece of `s` left once the whitespace before and
   * after it is removed; it neither starts nor ends with whitespace.
   */
  function Trim(s: string): (r: string)
    ensures exists i, j ::
      && 0 <= i <= j <= |s| && r == s[i..j]
      && (forall k :: 0 <= k < i ==> IsJsWhitespace(s[k]))
      && (forall k :: j <= k < |s| ==> IsJsWhitespace(s[k]))
    ensures r == [] || (!IsJsWhitespace(r[0]) && !IsJsWhitespace(r[|r| - 1]))
  {
    var t := TrimStart(s);
    var r := TrimEnd(t);
    PieceOfSuffix(s, t, r, |s| - |t|);
    r
  }

  /**
   * A prefix `r` of the suffix `t == s[i..]`, with only whitespace before `t`
   * in `s` and after `r` in `t`, is a piece `s[i..j]` of `s` with only
   * whitespace around it; it keeps the non-whitespace ends of `t` and `r`.
   */
  lemma PieceOfSuffix(s: string, t: string, r: string, i: nat)
    requires i <= |s| && t == s[i..] && |r| <= |t| && r == t[..|r|]
    requires forall k :: 0 <= k < i ==> IsJsWhitespace(s[k])
    requires forall k :: |r| <= k < |t| ==> IsJsWhitespace(t[k])
    requires t == [] || !IsJsWhitespace(t[0])
    requires r == [] || !IsJsWhitespace(r[|r| - 1])
    ensures exists i, j ::
      && 0 <= i <= j <= |s| && r == s[i..j]
      && (forall k :: 0 <= k < i ==> IsJsWhitespace(s[k]))
      && (forall k :: j <= k < |s| ==> IsJsWhitespace(s[k]))
    ensures r == [] || (!IsJsWhitespace(r[0]) && !IsJsWhitespace(r[|r| - 1]))
  {
    var j := i + |r|;
    forall k | j <= k < |s|
      ensures IsJsWhitespace(s[k])
    {
      assert s[k] == t[k - i];
    }
    if r != [] {
      assert r[0] == t[0];
    }
    assert r == s[i..j];
  }

  /** Every suffix of a blank text is blank. */
  lemma BlankSuffix(s: string, k: nat)
    requires k <= |s| && Blank(s)
    ensures Blank(s[k..])
  {
    assert forall i :: 0 <= i < |s| - k ==> s[k..][i] == s[k + i];
  }

  /** A line trims to the empty text exactly when it is blank. */
  lemma TrimEmptyIffBlank(s: string)
    ensures Trim(s) == "" <==> Blank(s)
  {
    var t := TrimStart(s);
    if Blank(s) {
      BlankSuffix(s, |s| - |t|);
    }
  }

  /** Does the source's filter keep this line? */
  predicate Kept(line: string)
  {
    Trim(line) != ""
  }

  /** `xs.filter(keep)`: the elements that satisfy `keep`, in their original order. */
  function Filter<T>(xs: seq<T>, keep: T -> bool): (kept: seq<T>)
    ensures |kept| <= |xs|
    ensures forall k :: 0 <= k < |kept| ==> kept[k] in xs && keep(kept[k])
  {
    if xs == [] then []
    else
      var n := |xs| - 1;
      Filter(xs[..n], keep) + (if keep(xs[n]) then [xs[n]] else [])
  }

  /** Filtering one more element at the end keeps it exactly when it satisfies `keep`. */
  lemma FilterSnoc<T>(xs: seq<T>, x: T, keep: T -> bool)
    ensures Filter(xs + [x], keep) == Filter(xs, keep) + (if keep(x) then [x] else [])
  {
    assert (xs + [x])[..|xs|] == xs;
  }

  /** A sequence whose every element satisfies `keep` passes the filter unchanged. */
  lemma {:induction false} FilterAllKept<T>(xs: seq<T>, keep: T -> bool)
    requires forall k :: 0 <= k < |xs| ==> keep(xs[k])
    ensures Filter(xs, keep) == xs
  {
    if xs != [] {
      var n := |xs| - 1;
      FilterAllKept(xs[..n], keep);
      assert xs[..n] + [xs[n]] == xs;
    }
  }

  /** A sequence none of whose elements satisfies `keep` filters to nothing. */
  lemma {:induction false} FilterNoneKept<T>(xs: seq<T>, keep: T -> bool)
    requires forall k :: 0 <= k < |xs| ==> !keep(xs[k])
    ensures Filter(xs, keep) == []
  {
    if xs != [] {
      var n := |xs| - 1;
      assert forall k :: 0 <= k < n ==> xs[..n][k] == xs[k];
      FilterNoneKept(xs[..n], keep);
    }
  }

  /** The positions of the elements that satisfy `keep`, in increasing order. */
  function KeptPositions<T>(xs: seq<T>, keep: T -> bool): seq<nat>
  {
    if xs == [] then []
    else
      var n := |xs| - 1;
      KeptPositions(xs[..n], keep) + (if keep(xs[n]) then [n] else [])
  }

  /** The kept positions are in range, strictly increasing, and are exactly those of kept elements. */
  lemma {:induction false} KeptPositionsExactly<T>(xs: seq<T>, keep: T -> bool)
    ensures var pos := KeptPositions(xs, keep);
      && (forall k :: 0 <= k < |pos| ==> pos[k] < |xs|)
      && (forall k, m :: 0 <= k < m < |pos| ==> pos[k] < pos[m])
      && (forall i :: 0 <= i < |xs| ==> (i in pos <==> keep(xs[i])))
  {
    if xs != [] {
      var n := |xs| - 1;
      var front := xs[..n];
      KeptPositionsExactly(front, keep);
      var pos' := KeptPositions(front, keep);
      var pos := KeptPositions(xs, keep);
      assert pos == pos' + (if keep(xs[n]) then [n] else []);
      assert n !in pos';
      forall i | 0 <= i < |xs|
        ensures i in pos <==> keep(xs[i])
      {
        if i < n {
          assert front[i] == xs[i];
        }
      }
    }
  }

  /** The filter's output is its input read at the kept positions. */
  lemma {:induction false} FilterAtPositions<T>(xs: seq<T>, keep: T -> bool)
    ensures var pos := KeptPositions(xs, keep);
      && |Filter(xs, keep)| == |pos|
      && (forall k :: 0 <= k < |pos| ==> pos[k] < |xs| && Filter(xs, keep)[k] == xs[pos[k]])
  {
    KeptPositionsExactly(xs, keep);
    if xs != [] {
      var n := |xs| - 1;
      var front := xs[..n];
      FilterAtPositions(front, keep);
      KeptPositionsExactly(front, keep);
      var pos' := KeptPositions(front, keep);
      forall k | 0 <= k < |pos'|
        ensures front[pos'[k]] == xs[pos'[k]]
      {
      }
    }
  }

  /**
   * The line filter keeps exactly the non-blank pieces, in order: its output is
   * the input read at a strictly increasing list of positions, and a position is
   * on that list exactly when its piece is not blank.
   */
  lemma KeepNonBlankExactly(pieces: seq<string>)
    ensures var pos := KeptPositions(pieces, Kept);
      && |Filter(pieces, Kept)| == |pos|
      && (forall k :: 0 <= k < |pos| ==> pos[k] < |pieces| && Filter(pieces, Kept)[k] == pieces[pos[k]])
      && (forall k, m :: 0 <= k < m < |pos| ==> pos[k] < pos[m])
      && (forall i :: 0 <= i < |pieces| ==> (i in pos <==> !Blank(pieces[i])))
  {
    KeptPositionsExactly(pieces, Kept);
    FilterAtPositions(pieces, Kept);
    forall i | 0 <= i < |pieces|
      ensures Kept(pieces[i]) <==> !Blank(pieces[i])
    {
      TrimEmptyIffBlank(pieces[i]);
    }
  }

  /** `data.split('\r\n').filter(line => line.trim() !== '')`. */
  function Lines(data: string): (lines: seq<string>)
    ensures forall k :: 0 <= k < |lines| ==> !Blank(lines[k]) && !Contains(lines[k], LineBreak)
  {
    var pieces := Split(data, LineBreak);
    KeepNonBlankExactly(pieces);
    Filter(pieces, Kept)
  }

  /**
   * A payload whose lines end in a bare line feed has no CR LF in it, so it is
   * one single line (or none, when it is all whitespace).
   */
  lemma BareLineFeedIsOneLine(data: string)
    requires !Contains(data, LineBreak)
    ensures Lines(data) == if Blank(data) then [] else [data]
  {
    SplitWithoutSeparator(data, LineBreak);
    TrimEmptyIffBlank(data);
    assert [data][..0] == [];
  }
}
