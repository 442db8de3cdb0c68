/**
 * The per-run recorder that the typing document drives (`RunStats` in the
 * original program).  Its own source is not part of this model, so this module
 * gives it the smallest concrete behaviour that the document relies on:
 * a cursor `index` over the match text, a per-position mark (typed correctly
 * at the last visit, mistakes so far) and an undo stack that lets `PopChar`
 * say which character the document must put back on backspace.
 * Timing is not modelled: `started` only records the clock value of a warm start.
 */
module RunStats {

  import opened Wrappers

  /** What one `Advance` did to the document buffer, newest last. */
  datatype Edit =
    | Overwrote(restore: char)  // the cursor moved past a target character
    | Inserted                   // the typed character was inserted, the cursor stayed

  datatype Mark = Mark(ok: bool, mistakes: nat)

  datatype Run = Run(text: seq<char>, marks: seq<Mark>, index: nat, undo: seq<Edit>, started: Option<real>)

  ghost predicate Valid(r: Run) {
    |r.marks| == |r.text| && r.index <= |r.text|
  }

  /** `RunStats.make(text)`, with the clock value of a warm start. */
  function Make(text: seq<char>, started: Option<real>): (r: Run)
    ensures Valid(r) && r.text == text && r.index == 0 && r.undo == []
    ensures forall i :: 0 <= i < |text| ==> !r.marks[i].ok && r.marks[i].mistakes == 0
  {
    Run(text, seq(|text|, _ => Mark(false, 0)), 0, [], started)
  }

  /** `current.char`: the target character under the cursor; none once the text is used up. */
  function Current(r: Run): (c: Option<char>)
    requires Valid(r)
    ensures c.Some? <==> r.index < |r.text|
    ensures c.Some? ==> c.value == r.text[r.index]
  {
    if r.index < |r.text| then Some(r.text[r.index]) else None
  }

  /** `is_complete()`: the cursor is at the end and the last character was typed correctly. */
  predicate IsComplete(r: Run)
    requires Valid(r)
  {
    |r.text| > 0 && r.index == |r.text| && r.marks[|r.text| - 1].ok
  }

  /** `visit(correct)`: records how the current position was typed. */
  function Visit(r: Run, correct: bool): (r': Run)
    requires Valid(r)
    ensures Valid(r') && r'.text == r.text && r'.index == r.index && r'.undo == r.undo
    ensures r.index < |r.text| ==>
      r'.marks == r.marks[r.index := Mark(correct, r.marks[r.index].mistakes + if correct then 0 else 1)]
    ensures r.index == |r.text| ==> r' == r
  {
    if r.index < |r.text| then
      var m := r.marks[r.index];
      r.(marks := r.marks[r.index := Mark(correct, m.mistakes + if correct then 0 else 1)])
    else
      r
  }

  /** `advance(should_advance)`: moves past the current character, or remembers an insertion. */
  function Advance(r: Run, shouldAdvance: bool): (r': Run)
    requires Valid(r)
    ensures Valid(r') && r'.text == r.text && r'.marks == r.marks
    ensures shouldAdvance && r.index < |r.text| ==>
      r'.index == r.index + 1 && r'.undo == r.undo + [Overwrote(r.text[r.index])]
    ensures !(shouldAdvance && r.index < |r.text|) ==> r'.index == r.index && r'.undo == r.undo + [Inserted]
  {
    if shouldAdvance && r.index < |r.text| then
      r.(index := r.index + 1, undo := r.undo + [Overwrote(r.text[r.index])])
    else
      r.(undo := r.undo + [Inserted])
  }

  /** `pop_char()`: undoes the newest edit; returns the character the buffer must get back. */
  function PopChar(r: Run): (res: (Run, Option<char>))
    requires Valid(r)
    ensures Valid(res.0) && res.0.text == r.text
    ensures r.undo == [] ==> res == (r, None)
    ensures r.undo != [] ==> res.0.undo == r.undo[..|r.undo| - 1]
    ensures r.undo != [] && r.undo[|r.undo| - 1].Inserted? ==> res == (r.(undo := res.0.undo), None)
    ensures r.undo != [] && r.undo[|r.undo| - 1].Overwrote? ==>
      res.1 == Some(r.undo[|r.undo| - 1].restore) && (r.index > 0 ==> res.0.index == r.index - 1)
  {
    if r.undo == [] then (r, None)
    else
      var rest := r.undo[..|r.undo| - 1];
      match r.undo[|r.undo| - 1]
      case Inserted => (r.(undo := rest), None)
      case Overwrote(c) =>
        if r.index > 0 then
          var m := r.marks[r.index - 1];
          (r.(index := r.index - 1, undo := rest, marks := r.marks[r.index - 1 := m.(ok := false)]), Some(c))
        else
          (r.(undo := rest), Some(c))
  }

  /** `last_was_error()`: the newest typed character is not a confirmed-correct one. */
  predicate LastWasError(r: Run)
    requires Valid(r)
  {
    r.undo != [] && (r.undo[|r.undo| - 1].Inserted? || (r.index > 0 && !r.marks[r.index - 1].ok))
  }
}
