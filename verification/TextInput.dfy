/** Converting between byte offsets (UTF-8) and code-unit offsets (UTF-16) in a text field. */
module TextInput {
  import opened Wrappers

  /** A Unicode scalar value. */
  type Scalar = c: int | 0 <= c < 0xD800 || 0xE000 <= c < 0x11_0000

  /** Bytes of the character in UTF-8 (section 3 of RFC 3629). */
  function LenUtf8(c: Scalar): (n: nat)
    ensures 1 <= n <= 4
  {
    if c < 0x80 then 1 else if c < 0x800 then 2 else if c < 0x1_0000 then 3 else 4
  }

  /** Code units of the character in UTF-16: two, a surrogate pair, from U+10000 (section 2.1 of RFC 2781). */
  function LenUtf16(c: Scalar): (n: nat)
    ensures 1 <= n <= 2
  {
    if c < 0x1_0000 then 1 else 2
  }

  function Utf8Len(s: seq<Scalar>): nat {
    if s == [] then 0 else Utf8Len(s[..|s| - 1]) + LenUtf8(s[|s| - 1])
  }

  function Utf16Len(s: seq<Scalar>): nat {
    if s == [] then 0 else Utf16Len(s[..|s| - 1]) + LenUtf16(s[|s| - 1])
  }

  /** The byte offset of character `i`. */
  function ByteAt(s: seq<Scalar>, i: nat): nat
    requires i <= |s|
  {
    Utf8Len(s[..i])
  }

  /** The code-unit offset of character `i`. */
  function UnitAt(s: seq<Scalar>, i: nat): nat
    requires i <= |s|
  {
    Utf16Len(s[..i])
  }

  lemma NextOffsets(s: seq<Scalar>, i: nat)
    requires i < |s|
    ensures ByteAt(s, i + 1) == ByteAt(s, i) + LenUtf8(s[i])
    ensures UnitAt(s, i + 1) == UnitAt(s, i) + LenUtf16(s[i])
  {
    assert s[..i + 1][..i] == s[..i];
  }

  /** Both offsets order characters as their positions do. */
  lemma {:induction false} OffsetsIncrease(s: seq<Scalar>, i: nat, j: nat)
    requires i <= j <= |s|
    ensures i < j ==> ByteAt(s, i) < ByteAt(s, j) && UnitAt(s, i) < UnitAt(s, j)
    decreases j
  {
    if i < j {
      OffsetsIncrease(s, i, j - 1);
      NextOffsets(s, j - 1);
    }
  }

  ghost predicate IsBoundary(s: seq<Scalar>, b: nat) {
    exists i: nat :: i <= |s| && ByteAt(s, i) == b
  }

  /** The first character position at or after code unit `k`, or the end. */
  ghost predicate CeilUnit(s: seq<Scalar>, k: nat, i: nat) {
    && i <= |s|
    && (i < |s| ==> k <= UnitAt(s, i))
    && (forall j :: 0 <= j < i ==> UnitAt(s, j) < k)
  }

  /** The first character position at or after byte `b`, or the end. */
  ghost predicate CeilByte(s: seq<Scalar>, b: nat, i: nat) {
    && i <= |s|
    && (i < |s| ==> b <= ByteAt(s, i))
    && (forall j :: 0 <= j < i ==> ByteAt(s, j) < b)
  }

  ghost predicate IsFromUtf16(s: seq<Scalar>, k: nat, b: nat) {
    exists i: nat :: CeilUnit(s, k, i) && b == ByteAt(s, i)
  }

  ghost predicate IsToUtf16(s: seq<Scalar>, b: nat, k: nat) {
    exists i: nat :: CeilByte(s, b, i) && k == UnitAt(s, i)
  }

  /** At a boundary, the code-unit offset is that of the same character. */
  lemma ToUtf16AtBoundary(s: seq<Scalar>, i: nat, k: nat)
    requires i <= |s| && IsToUtf16(s, ByteAt(s, i), k)
    ensures k == UnitAt(s, i)
  {
    var j: nat :| CeilByte(s, ByteAt(s, i), j) && k == UnitAt(s, j);
    if j < i {
      OffsetsIncrease(s, j, i);
    }
  }

  /** The two conversions are adjoint: the byte offset for `k` is at most a boundary exactly when `k` is at most its unit offset. */
  lemma Adjunction(s: seq<Scalar>, k: nat, from: nat, b: nat, to: nat)
    requires IsFromUtf16(s, k, from) && IsBoundary(s, b) && IsToUtf16(s, b, to)
    requires k <= Utf16Len(s)
    ensures from <= b <==> k <= to
  {
    var i: nat :| CeilUnit(s, k, i) && from == ByteAt(s, i);
    var j: nat :| j <= |s| && ByteAt(s, j) == b;
    ToUtf16AtBoundary(s, j, to);
    assert s[..|s|] == s;
    if i <= j {
      OffsetsIncrease(s, i, j);
    } else {
      OffsetsIncrease(s, j, i);
    }
  }

  /** A later code unit never converts to an earlier byte. */
  lemma FromUtf16IsMonotone(s: seq<Scalar>, k: nat, k': nat, b: nat, b': nat)
    requires k <= k' && IsFromUtf16(s, k, b) && IsFromUtf16(s, k', b')
    ensures b <= b'
  {
    var i: nat :| CeilUnit(s, k, i) && b == ByteAt(s, i);
    var j: nat :| CeilUnit(s, k', j) && b' == ByteAt(s, j);
    if i <= j {
      OffsetsIncrease(s, i, j);
    }
  }

  /** Nor a later byte to an earlier code unit. */
  lemma ToUtf16IsMonotone(s: seq<Scalar>, b: nat, b': nat, k: nat, k': nat)
    requires b <= b' && IsToUtf16(s, b, k) && IsToUtf16(s, b', k')
    ensures k <= k'
  {
    var i: nat :| CeilByte(s, b, i) && k == UnitAt(s, i);
    var j: nat :| CeilByte(s, b', j) && k' == UnitAt(s, j);
    if i <= j {
      OffsetsIncrease(s, i, j);
    }
  }

  /** Character boundaries survive the round trip that starts in code units. */
  lemma UnitsRoundTrip(s: seq<Scalar>, i: nat, b: nat, k: nat)
    requires i <= |s|
    requires IsFromUtf16(s, UnitAt(s, i), b) && IsToUtf16(s, b, k)
    ensures b == ByteAt(s, i) && k == UnitAt(s, i)
  {
    var j: nat :| CeilUnit(s, UnitAt(s, i), j) && b == ByteAt(s, j);
    if j < i {
      OffsetsIncrease(s, j, i);
    }
    ToUtf16AtBoundary(s, i, k);
  }

  /** And the one that starts in bytes. */
  lemma BytesRoundTrip(s: seq<Scalar>, i: nat, k: nat, b: nat)
    requires i <= |s|
    requires IsToUtf16(s, ByteAt(s, i), k) && IsFromUtf16(s, k, b)
    ensures b == ByteAt(s, i) && k == UnitAt(s, i)
  {
    ToUtf16AtBoundary(s, i, k);
    var j: nat :| CeilUnit(s, k, j) && b == ByteAt(s, j);
    if j < i {
      OffsetsIncrease(s, j, i);
    }
  }

  /** An offset between the halves of a surrogate pair goes to the end of the character. */
  lemma MidPairRoundsUp(s: seq<Scalar>, i: nat, b: nat)
    requires i < |s| && s[i] >= 0x1_0000 && IsFromUtf16(s, UnitAt(s, i) + 1, b)
    ensures b == ByteAt(s, i + 1)
  {
    var j: nat :| CeilUnit(s, UnitAt(s, i) + 1, j) && b == ByteAt(s, j);
    NextOffsets(s, i);
    if j <= i {
      OffsetsIncrease(s, j, i);
    }
  }

  /** The character position at a byte offset. */
  function CharIndex(s: seq<Scalar>, b: nat): (i: nat)
    ensures i <= |s|
  {
    if s == [] || Utf8Len(s) <= b then |s| else CharIndex(s[..|s| - 1], b)
  }

  lemma {:induction false} CharIndexAtBoundary(s: seq<Scalar>, i: nat)
    requires i <= |s|
    ensures CharIndex(s, ByteAt(s, i)) == i
  {
    assert s[..|s|] == s;
    OffsetsIncrease(s, i, |s|);
    if i < |s| {
      var init := s[..|s| - 1];
      assert init[..i] == s[..i];
      CharIndexAtBoundary(init, i);
    }
  }

  lemma {:induction false} Utf8LenConcat(s: seq<Scalar>, t: seq<Scalar>)
    ensures Utf8Len(s + t) == Utf8Len(s) + Utf8Len(t)
  {
    if t == [] {
      assert s + t == s;
    } else {
      Utf8LenConcat(s, t[..|t| - 1]);
      assert (s + t)[..|s + t| - 1] == s + t[..|t| - 1];
    }
  }

  datatype Range = Range(start: nat, end: nat)

  /** The text of a range of byte offsets. */
  function Slice(s: seq<Scalar>, r: Range): seq<Scalar> {
    var i, j := CharIndex(s, r.start), CharIndex(s, r.end);
    if i <= j then s[i..j] else []
  }

  /** The text before a byte offset. */
  function UpTo(s: seq<Scalar>, b: nat): seq<Scalar> {
    s[..CharIndex(s, b)]
  }

  /** The text from a byte offset on. */
  function From(s: seq<Scalar>, b: nat): seq<Scalar> {
    s[CharIndex(s, b)..]
  }

  /** `text` put in place of everything from byte `start` to byte `end`. */
  function Spliced(s: seq<Scalar>, r: Range, text: seq<Scalar>): seq<Scalar> {
    s[..CharIndex(s, r.start)] + text + s[CharIndex(s, r.end)..]
  }

  /** The text put in is found again between the start of the range and the start plus its length in bytes. */
  lemma SpliceThenSlice(s: seq<Scalar>, r: Range, text: seq<Scalar>, after: seq<Scalar>)
    requires IsBoundary(s, r.start) && after == Spliced(s, r, text)
    ensures IsBoundary(after, r.start) && IsBoundary(after, r.start + Utf8Len(text))
    ensures Slice(after, Range(r.start, r.start + Utf8Len(text))) == text
  {
    var i: nat :| i <= |s| && ByteAt(s, i) == r.start;
    assert CharIndex(s, r.start) == i by {
      CharIndexAtBoundary(s, i);
    }
    SpliceAt(s, i, CharIndex(s, r.end), text, after, r.start, r.start + Utf8Len(text));
  }

  /** What stood before the range and what stood behind it is still there, on either side of the new text. */
  lemma SpliceKeepsTheRest(s: seq<Scalar>, r: Range, text: seq<Scalar>, after: seq<Scalar>)
    requires IsBoundary(s, r.start) && IsBoundary(s, r.end) && after == Spliced(s, r, text)
    ensures UpTo(after, r.start) == UpTo(s, r.start)
    ensures From(after, r.start + Utf8Len(text)) == From(s, r.end)
  {
    var i: nat :| i <= |s| && ByteAt(s, i) == r.start;
    var e: nat :| e <= |s| && ByteAt(s, e) == r.end;
    CharIndexAtBoundary(s, i);
    CharIndexAtBoundary(s, e);
    EndsAfterSplice(s, i, e, text, after, r, r.start + Utf8Len(text));
  }

  lemma EndsAfterSplice(s: seq<Scalar>, i: nat, e: nat, text: seq<Scalar>, after: seq<Scalar>, r: Range, behind: nat)
    requires i <= |s| && e <= |s| && after == s[..i] + text + s[e..]
    requires ByteAt(s, i) == r.start && ByteAt(s, e) == r.end && behind == r.start + Utf8Len(text)
    ensures UpTo(after, r.start) == UpTo(s, r.start) && From(after, behind) == From(s, r.end)
  {
    SpliceOffsets(s, i, e, text, after);
    SplicedParts(s, i, e, text, after);
    SameEnds(s, i, e, after, i + |text|, r, behind);
  }

  lemma SplicedParts(s: seq<Scalar>, i: nat, e: nat, text: seq<Scalar>, after: seq<Scalar>)
    requires i <= |s| && e <= |s| && after == s[..i] + text + s[e..]
    ensures after[..i] == s[..i] && after[i + |text|..] == s[e..]
  {
  }

  lemma SameEnds(s: seq<Scalar>, i: nat, e: nat, after: seq<Scalar>, k: nat, r: Range, behind: nat)
    requires i <= |s| && e <= |s| && i <= |after| && k <= |after|
    requires after[..i] == s[..i] && after[k..] == s[e..]
    requires ByteAt(s, i) == r.start && ByteAt(s, e) == r.end && ByteAt(after, k) == behind
    ensures UpTo(after, r.start) == UpTo(s, r.start) && From(after, behind) == From(s, r.end)
  {
    CharIndexAtBoundary(s, i);
    CharIndexAtBoundary(s, e);
    CharIndexAtBoundary(after, i);
    CharIndexAtBoundary(after, k);
  }

  lemma SpliceAt(s: seq<Scalar>, i: nat, e: nat, text: seq<Scalar>, after: seq<Scalar>, start: nat, end: nat)
    requires i <= |s| && e <= |s| && after == s[..i] + text + s[e..]
    requires start == ByteAt(s, i) && end == start + Utf8Len(text)
    ensures IsBoundary(after, start) && IsBoundary(after, end)
    ensures Slice(after, Range(start, end)) == text
  {
    SpliceOffsets(s, i, e, text, after);
    SliceBetween(after, i, i + |text|);
  }

  lemma SliceBetween(s: seq<Scalar>, i: nat, j: nat)
    requires i <= j <= |s|
    ensures IsBoundary(s, ByteAt(s, i)) && IsBoundary(s, ByteAt(s, j))
    ensures Slice(s, Range(ByteAt(s, i), ByteAt(s, j))) == s[i..j]
  {
    CharIndexAtBoundary(s, i);
    CharIndexAtBoundary(s, j);
  }

  lemma SpliceOffsets(s: seq<Scalar>, i: nat, e: nat, text: seq<Scalar>, after: seq<Scalar>)
    requires i <= |s| && e <= |s| && after == s[..i] + text + s[e..]
    ensures ByteAt(after, i) == ByteAt(s, i)
    ensures ByteAt(after, i + |text|) == ByteAt(s, i) + Utf8Len(text)
    ensures after[i..i + |text|] == text
  {
    JoinedOffsets(s[..i], text, s[e..], after);
  }

  lemma JoinedOffsets(before: seq<Scalar>, text: seq<Scalar>, rest: seq<Scalar>, all: seq<Scalar>)
    requires all == before + text + rest
    ensures ByteAt(all, |before|) == Utf8Len(before)
    ensures ByteAt(all, |before| + |text|) == Utf8Len(before) + Utf8Len(text)
    ensures all[|before|..|before| + |text|] == text
  {
    assert all[..|before|] == before;
    assert all[|before|..|before| + |text|] == text;
    SpanBytes(all, |before|, |before| + |text|);
  }

  lemma SpanBytes(s: seq<Scalar>, i: nat, j: nat)
    requires i <= j <= |s|
    ensures ByteAt(s, j) == ByteAt(s, i) + Utf8Len(s[i..j])
  {
    assert s[..j] == s[..i] + s[i..j];
    Utf8LenConcat(s[..i], s[i..j]);
  }

  class Field {
    var content: seq<Scalar>
    var selected: Range
    var marked: Option<Range>

    ghost predicate RangeOk(r: Range)
      reads this
    {
      r.start <= r.end && IsBoundary(content, r.start) && IsBoundary(content, r.end)
    }

    ghost predicate Valid()
      reads this
    {
      RangeOk(selected) && (marked.Some? ==> RangeOk(marked.value))
    }

    method OffsetFromUtf16(offset: nat) returns (utf8Offset: nat)
      ensures IsFromUtf16(content, offset, utf8Offset)
    {
      utf8Offset := 0;
      var utf16Count := 0;
      var i := 0;
      while i < |content|
        invariant 0 <= i <= |content|
        invariant utf8Offset == ByteAt(content, i) && utf16Count == UnitAt(content, i)
        invariant forall j :: 0 <= j < i ==> UnitAt(content, j) < offset
      {
        if utf16Count >= offset {
          break;
        }
        NextOffsets(content, i);
        utf16Count := utf16Count + LenUtf16(content[i]);
        utf8Offset := utf8Offset + LenUtf8(content[i]);
        i := i + 1;
      }
      assert CeilUnit(content, offset, i);
    }

    method OffsetToUtf16(offset: nat) returns (utf16Offset: nat)
      ensures IsToUtf16(content, offset, utf16Offset)
    {
      utf16Offset := 0;
      var utf8Count := 0;
      var i := 0;
      while i < |content|
        invariant 0 <= i <= |content|
        invariant utf16Offset == UnitAt(content, i) && utf8Count == ByteAt(content, i)
        invariant forall j :: 0 <= j < i ==> ByteAt(content, j) < offset
      {
        if utf8Count >= offset {
          break;
        }
        NextOffsets(content, i);
        utf8Count := utf8Count + LenUtf8(content[i]);
        utf16Offset := utf16Offset + LenUtf16(content[i]);
        i := i + 1;
      }
      assert CeilByte(content, offset, i);
    }

    method RangeToUtf16(range: Range) returns (r: Range)
      ensures IsToUtf16(content, range.start, r.start) && IsToUtf16(content, range.end, r.end)
      ensures range.start <= range.end ==> r.start <= r.end
    {
      var start := OffsetToUtf16(range.start);
      var end := OffsetToUtf16(range.end);
      if range.start <= range.end {
        ToUtf16IsMonotone(content, range.start, range.end, start, end);
      }
      r := Range(start, end);
    }

    method RangeFromUtf16(range: Range) returns (r: Range)
      ensures IsFromUtf16(content, range.start, r.start) && IsFromUtf16(content, range.end, r.end)
      ensures range.start <= range.end ==> RangeOk(r)
    {
      var start := OffsetFromUtf16(range.start);
      var end := OffsetFromUtf16(range.end);
      r := Range(start, end);
      if range.start <= range.end {
        FromUtf16IsMonotone(content, range.start, range.end, start, end);
      }
    }

    /** Replaces a range given in code units, or the marked range, or the selection, and leaves the cursor behind it. */
    method ReplaceTextInRange(rangeUtf16: Option<Range>, newText: seq<Scalar>)
      requires Valid()
      modifies this`content, this`selected, this`marked
      ensures Valid() && marked == None
      ensures exists range: Range ::
                && (match rangeUtf16
                    case Some(r) => && IsFromUtf16(old(content), r.start, range.start)
                                    && IsFromUtf16(old(content), r.end, range.end)
                    case None => range == if old(marked).Some? then old(marked).value else old(selected))
                && content == Spliced(old(content), range, newText)
                && selected == Range(range.start + Utf8Len(newText), range.start + Utf8Len(newText))
    {
      var range: Range;
      if rangeUtf16.Some? {
        range := RangeFromUtf16(rangeUtf16.value);
      } else if marked.Some? {
        range := marked.value;
      } else {
        range := selected;
      }
      content := content[..CharIndex(content, range.start)] + newText + content[CharIndex(content, range.end)..];
      SpliceThenSlice(old(content), range, newText, content);
      selected := Range(range.start + Utf8Len(newText), range.start + Utf8Len(newText));
      marked := None;
    }
  }
}
