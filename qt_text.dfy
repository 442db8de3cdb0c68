/**
 * The few Qt text-document operations the typing document uses, on values.
 * A document is its characters; a block separator is written '\n'.  `Buf`
 * carries the document together with the two movable cursors the lesson
 * keeps on it: the typing cursor and the end of the active region
 * (`_end`).  Both follow Qt's rule for cursors that do not keep their place
 * on insertion: text inserted at or before them pushes them right, a
 * deleted character before them pulls them left.
 */
module QtText {

  const BLOCK_SEPARATOR: char := '\n'

  datatype Buf = Buf(chars: seq<char>, cursor: nat, endMark: nat)

  ghost predicate Valid(b: Buf) {
    b.cursor <= |b.chars| && b.endMark <= |b.chars|
  }

  /** `cursor.insertText(ch)`: the character lands at the cursor, which moves past it. */
  function InsertText(b: Buf, ch: char): (b': Buf)
    requires Valid(b)
    ensures Valid(b')
    ensures b'.chars == b.chars[..b.cursor] + [ch] + b.chars[b.cursor..]
    ensures b'.cursor == b.cursor + 1
    ensures b'.endMark == if b.endMark >= b.cursor then b.endMark + 1 else b.endMark
  {
    Buf(b.chars[..b.cursor] + [ch] + b.chars[b.cursor..], b.cursor + 1,
        if b.endMark >= b.cursor then b.endMark + 1 else b.endMark)
  }

  /** `cursor.deleteChar()`: removes the character after the cursor, if any. */
  function DeleteChar(b: Buf): (b': Buf)
    requires Valid(b)
    ensures Valid(b') && b'.cursor == b.cursor
    ensures b.cursor < |b.chars| ==> b'.chars == b.chars[..b.cursor] + b.chars[b.cursor + 1..]
    ensures b.cursor == |b.chars| ==> b' == b
  {
    if b.cursor < |b.chars| then
      Buf(b.chars[..b.cursor] + b.chars[b.cursor + 1..], b.cursor,
          if b.cursor < b.endMark then b.endMark - 1 else b.endMark)
    else
      b
  }

  /** `cursor.deletePreviousChar()`: removes the character before the cursor, if any. */
  function DeletePreviousChar(b: Buf): (b': Buf)
    requires Valid(b)
    ensures Valid(b')
    ensures b.cursor > 0 ==>
      b'.chars == b.chars[..b.cursor - 1] + b.chars[b.cursor..] && b'.cursor == b.cursor - 1
    ensures b.cursor == 0 ==> b' == b
  {
    if b.cursor > 0 then
      Buf(b.chars[..b.cursor - 1] + b.chars[b.cursor..], b.cursor - 1,
          if b.cursor - 1 < b.endMark then b.endMark - 1 else b.endMark)
    else
      b
  }

  predicate AtBlockStart(chars: seq<char>, p: nat)
    requires p <= |chars|
  {
    p == 0 || chars[p - 1] == BLOCK_SEPARATOR
  }

  predicate AtBlockEnd(chars: seq<char>, p: nat)
    requires p <= |chars|
  {
    p == |chars| || chars[p] == BLOCK_SEPARATOR
  }

  /** `movePosition(NextCharacter)`: one step right, unless at the end of the document. */
  function NextCharacter(chars: seq<char>, p: nat): (q: nat)
    requires p <= |chars|
    ensures q <= |chars|
    ensures q == if p < |chars| then p + 1 else p
  {
    if p < |chars| then p + 1 else p
  }

  /** `movePosition(PreviousCharacter)`: one step left, unless at the start of the document. */
  function PreviousCharacter(p: nat): (q: nat)
    ensures q == if p > 0 then p - 1 else 0
  {
    if p > 0 then p - 1 else 0
  }

  predicate IsSpace(c: char) {
    c == ' ' || c == '\t' || c == BLOCK_SEPARATOR
  }

  /** The start of the run of spaces that ends at `p`. */
  function SkipSpacesBack(chars: seq<char>, p: nat): (q: nat)
    requires p <= |chars|
    ensures q <= p
    ensures forall i :: q <= i < p ==> IsSpace(chars[i])
    ensures q > 0 ==> !IsSpace(chars[q - 1])
  {
    if p > 0 && IsSpace(chars[p - 1]) then SkipSpacesBack(chars, p - 1) else p
  }

  /** The start of the run of word characters that ends at `p`. */
  function SkipWordBack(chars: seq<char>, p: nat): (q: nat)
    requires p <= |chars|
    ensures q <= p
    ensures forall i :: q <= i < p ==> !IsSpace(chars[i])
    ensures q > 0 ==> IsSpace(chars[q - 1])
  {
    if p > 0 && !IsSpace(chars[p - 1]) then SkipWordBack(chars, p - 1) else p
  }

  /**
   * `movePosition(PreviousWord)`: the start of the word before `p`, skipping
   * the spaces in between.  Qt's own word boundaries are finer (punctuation
   * is a word of its own); what the lesson relies on is only that the result
   * lies strictly before `p` unless `p` is the start of the document.
   */
  function PreviousWord(chars: seq<char>, p: nat): (q: nat)
    requires p <= |chars|
    ensures q <= p
    ensures p > 0 ==> q < p
    ensures q > 0 ==> IsSpace(chars[q - 1])
  {
    SkipWordBack(chars, SkipSpacesBack(chars, p))
  }
}
