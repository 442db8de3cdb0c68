/**
 * The behaviour of `LessonDocument` (amphetype/typer.py) on values: the
 * whole state of one document as a `Doc`, and one function per operation
 * giving the state it leaves behind.  The class `Typer.LessonDocument`
 * performs these operations step by step on its fields and is proved to end
 * in exactly these states; the lemmas below state what the source promises
 * about them.
 *
 * The document buffer holds prologue, active region and epilogue; the active
 * region starts at the fixed position `start` (`_start`) and ends at
 * `buf.endMark` (`_end`).  `_start` and `_first_error` keep their place on
 * insertion, and no edit is ever made before them while they matter, so they
 * are plain positions here.
 */
module Lesson {

  import opened Wrappers
  import QtText
  import RunStats
  import TyperText

  /** The document's signals, in emission order. */
  datatype Signal =
    | Started
    | Progress(index: nat)
    | Completed
    | Position(pos: nat)  // `sig_position`, carrying the cursor position
    | Ready(text: string)

  datatype Doc = Doc(
    buf: QtText.Buf,
    start: nat,
    originalText: string,
    matchText: string,
    displayText: string,
    run: Option<RunStats.Run>,
    firstError: Option<nat>,
    signals: seq<Signal>)

  /** The buffer and its cursors agree, and the lesson texts are not empty. */
  ghost predicate Layout(d: Doc) {
    && QtText.Valid(d.buf)
    && d.start <= d.buf.cursor
    && d.start <= d.buf.endMark
    && d.matchText != [] && d.displayText != []
  }

  /** Everything but the pending first error. */
  ghost predicate Core(d: Doc) {
    Layout(d) && (d.run.Some? ==> RunStats.Valid(d.run.value) && d.run.value.text == d.matchText)
  }

  /** A pending first error lies in the active region, strictly before the cursor. */
  ghost predicate Valid(d: Doc) {
    Core(d) && (d.firstError.Some? ==> d.run.Some? && d.start <= d.firstError.value < d.buf.cursor)
  }

  /** `is_ready`: no run yet. */
  predicate IsReady(d: Doc) {
    d.run.None?
  }

  /** `is_running`: a run that is not complete. */
  predicate IsRunning(d: Doc)
    requires Core(d)
  {
    d.run.Some? && !RunStats.IsComplete(d.run.value)
  }

  /** `is_finished`: a complete run. */
  predicate IsFinished(d: Doc)
    requires Core(d)
  {
    d.run.Some? && RunStats.IsComplete(d.run.value)
  }

  /** The prologue, everything before the active region. */
  function Prologue(d: Doc): string
    requires Layout(d)
  {
    d.buf.chars[..d.start]
  }

  lemma ExactlyOnePhase(d: Doc)
    requires Core(d)
    ensures IsReady(d) || IsRunning(d) || IsFinished(d)
    ensures !(IsReady(d) && IsRunning(d)) && !(IsReady(d) && IsFinished(d)) && !(IsRunning(d) && IsFinished(d))
  {
  }

  /**
   * `reset`: the active region gets the display text again, the cursor goes
   * back to `_start`, the run and the first error are dropped.
   */
  function Reset(d: Doc): (r: Doc)
    requires Layout(d)
    ensures Valid(r)
  {
    var b := d.buf;
    var chars := b.chars[..d.start] + d.displayText + b.chars[b.endMark..];
    // The region's text is replaced: a cursor inside it ends after the new
    // text, a cursor beyond it shifts by the change in length.
    var shifted := if b.cursor <= b.endMark then d.start + |d.displayText|
                   else b.cursor - (b.endMark - d.start) + |d.displayText|;
    var moved := shifted != d.start;
    d.(buf := QtText.Buf(chars, d.start, d.start + |d.displayText|),
       run := None,
       firstError := None,
       signals := d.signals + (if moved then [Position(d.start)] else []) + [Ready(d.matchText)])
  }


  /** `set_text`: a new document of prologue, display text and epilogue, then `reset`. */
  function SetText(signals: seq<Signal>, text: string, prologue: string, epilogue: string): (r: Doc)
    ensures Valid(r)
  {
    var empty := Doc(QtText.Buf(prologue + epilogue, |prologue|, |prologue|), |prologue|,
                     TyperText.EffectiveText(text), TyperText.MatchText(text), TyperText.DisplayText(text),
                     None, None, signals);
    Reset(empty)
  }

  /**
   * A document laid out as `set_text` leaves it just before `reset` resets to
   * the state of `SetText`, whatever run and first error it still holds.
   */
  lemma SetTextResets(d: Doc, signals: seq<Signal>, text: string, prologue: string, epilogue: string)
    requires d.buf == QtText.Buf(prologue + epilogue, |prologue|, |prologue|) && d.start == |prologue|
    requires d.originalText == TyperText.EffectiveText(text)
    requires d.matchText == TyperText.MatchText(text) && d.displayText == TyperText.DisplayText(text)
    requires d.signals == signals
    ensures Layout(d) && Reset(d) == SetText(signals, text, prologue, epilogue)
  {
  }

  /** `start` (warm start): a run that began at clock value `now`. */
  function Start(d: Doc, now: real): (r: Doc)
    requires Valid(d) && IsReady(d)
    ensures Valid(r)
  {
    d.(run := Some(RunStats.Make(d.matchText, Some(now))), signals := d.signals + [Started])
  }

  /** `actual_insert`: put `ch` at the cursor, overwrite the next character, step over a block end. */
  function ActualInsert(b: QtText.Buf, ch: char, overwrite: bool): (b': QtText.Buf)
    requires QtText.Valid(b)
    ensures QtText.Valid(b')
    ensures |b'.chars| == |b.chars| + if overwrite && b.cursor < |b.chars| then 0 else 1
    ensures b'.chars[..b.cursor] == b.chars[..b.cursor] && b'.chars[b.cursor] == ch
    ensures b.cursor + 1 <= b'.cursor <= b.cursor + 2
  {
    var b1 := QtText.InsertText(b, ch);
    var b2 := if overwrite then QtText.DeleteChar(b1) else b1;
    assert b2.chars[..b.cursor] == b.chars[..b.cursor] && b2.chars[b.cursor] == ch;
    if QtText.AtBlockEnd(b2.chars, b2.cursor) then
      b2.(cursor := QtText.NextCharacter(b2.chars, b2.cursor))
    else
      b2
  }

  /** The run an `insert` works on: the current one, or a fresh one on a cold start. */
  function StartedRun(d: Doc): (r: RunStats.Run)
    requires Core(d)
    ensures RunStats.Valid(r) && r.text == d.matchText
  {
    if d.run.None? then RunStats.Make(d.matchText, None) else d.run.value
  }

  predicate Correct(d: Doc, ch: char)
    requires Core(d)
  {
    RunStats.Current(StartedRun(d)) == Some(ch)
  }

  /** `should_advance = correct or overwrite`. */
  predicate ShouldAdvance(d: Doc, ch: char, overwrite: bool)
    requires Core(d)
  {
    Correct(d, ch) || overwrite
  }

  /** `insert(char, overwrite, lenient)`. */
  function Insert(d: Doc, ch: char, overwrite: bool, lenient: bool): (r: Doc)
    requires Valid(d)
    ensures Valid(r) && r.run.Some?
  {
    var r0 := StartedRun(d);
    var signals0 := if d.run.None? then d.signals + [Started] else d.signals;
    var correct := Correct(d, ch);
    var shouldAdvance := correct || overwrite;
    if d.firstError.Some? then
      // A previous error blocks timing: only the run's cursor moves.
      d.(run := Some(RunStats.Advance(r0, shouldAdvance)),
         buf := ActualInsert(d.buf, ch, shouldAdvance),
         signals := signals0)
    else
      var r1 := RunStats.Visit(r0, correct);
      var signals1 := if correct then signals0 + [Progress(r1.index)] else signals0;
      var firstError := if !correct && !lenient then Some(d.buf.cursor) else None;
      var r2 := RunStats.Advance(r1, shouldAdvance);
      var b := ActualInsert(d.buf, ch, shouldAdvance);
      var last := if RunStats.IsComplete(r2) then Completed else Position(b.cursor);
      d.(run := Some(r2), buf := b, firstError := firstError, signals := signals1 + [last])
  }

  /** The position `backspace` walks back to: one character or one word, never before `_start`. */
  function BackMark(d: Doc, byWord: bool): (m: nat)
    requires Core(d)
    ensures d.start <= m <= d.buf.cursor
  {
    var chars := d.buf.chars;
    var p0 := d.buf.cursor;
    var p1 := if QtText.AtBlockStart(chars, p0) then QtText.PreviousCharacter(p0) else p0;
    var p2 := if byWord then QtText.PreviousWord(chars, p1) else QtText.PreviousCharacter(p1);
    if p2 < d.start then d.start else p2
  }

  /**
   * One pass of the backspace loop: the run undoes its newest edit; if it
   * returns a character, that character takes the place of the one before
   * the cursor, otherwise the character before the cursor is deleted.
   */
  function PopStep(d: Doc): (r: Doc)
    requires Core(d) && d.run.Some? && d.buf.cursor > d.start
    ensures Core(r) && r.run.Some?
    ensures r.buf.cursor == d.buf.cursor - 1
    ensures r.run == Some(RunStats.PopChar(d.run.value).0)
    ensures RunStats.PopChar(d.run.value).1.Some? ==>
      r.buf.chars == d.buf.chars[..d.buf.cursor - 1] + [RunStats.PopChar(d.run.value).1.value] + d.buf.chars[d.buf.cursor..]
    ensures RunStats.PopChar(d.run.value).1.None? ==>
      r.buf.chars == d.buf.chars[..d.buf.cursor - 1] + d.buf.chars[d.buf.cursor..]
    ensures r == d.(buf := r.buf, run := r.run) && r.buf.chars[..d.start] == d.buf.chars[..d.start]
  {
    var (run, c) := RunStats.PopChar(d.run.value);
    var b := if c.Some? then
               var b1 := QtText.InsertText(d.buf, c.value);
               b1.(cursor := QtText.PreviousCharacter(b1.cursor))
             else d.buf;
    d.(run := Some(run), buf := QtText.DeletePreviousChar(b))
  }

  /** The backspace loop `while self.cursor > mark`, with the protected-mode stop. */
  function Unwind(d: Doc, mark: nat, protected: bool): (r: Doc)
    requires Core(d) && d.run.Some? && d.start <= mark
    ensures Core(r) && r.run.Some?
    ensures r == d.(buf := r.buf, run := r.run)
    ensures r.buf.chars[..d.start] == d.buf.chars[..d.start]
    ensures r.buf.cursor <= d.buf.cursor
    ensures mark <= d.buf.cursor ==> mark <= r.buf.cursor
    ensures r.buf.cursor > mark ==> r.buf.cursor == d.buf.cursor || (protected && !RunStats.LastWasError(r.run.value))
    ensures !protected && mark <= d.buf.cursor ==> r.buf.cursor == mark
    ensures protected && r.buf.cursor > mark ==> !RunStats.LastWasError(r.run.value)
    ensures protected && !RunStats.LastWasError(d.run.value) ==> r == d
    decreases d.buf.cursor
  {
    if d.buf.cursor <= mark then d
    else if protected && !RunStats.LastWasError(d.run.value) then d
    else Unwind(PopStep(d), mark, protected)
  }

  /** `backspace(by_word, protected)`. */
  function Backspace(d: Doc, byWord: bool, protected: bool): (r: Doc)
    requires Valid(d)
    ensures Valid(r)
  {
    if !IsRunning(d) then d
    else
      var mark := BackMark(d, byWord);
      if mark == d.buf.cursor then d
      else
        var u := Unwind(d, mark, protected);
        var firstError := if u.firstError.Some? && u.buf.cursor <= u.firstError.value then None else u.firstError;
        u.(firstError := firstError, signals := u.signals + [Position(u.buf.cursor)])
  }

  // ---------------------------------------------------------------------
  // Properties of the operations.

  /** `reset` leaves a ready document: no run, no first error, the cursor at `_start`, a fresh active region. */
  lemma ResetRestoresReady(d: Doc)
    requires Layout(d)
    ensures var r := Reset(d);
      && IsReady(r) && r.firstError.None? && r.buf.cursor == d.start && r.start == d.start
      && r.buf.chars == Prologue(d) + d.displayText + d.buf.chars[d.buf.endMark..]
      && Prologue(r) == Prologue(d)
      && r.buf.endMark == d.start + |d.displayText|
      && r.signals == d.signals + [Position(d.start), Ready(d.matchText)]
  {
    var r := Reset(d);
    assert r.buf.chars[..d.start] == Prologue(d);
  }

  /** Resetting twice gives the same document as resetting once (only the signals repeat). */
  lemma ResetIdempotent(d: Doc)
    requires Layout(d)
    ensures Reset(Reset(d)) == Reset(d).(signals := Reset(d).signals + [Position(d.start), Ready(d.matchText)])
  {
    var r := Reset(d);
    ResetRestoresReady(d);
    ResetRestoresReady(r);
    var tail := d.buf.chars[d.buf.endMark..];
    assert r.buf.chars[r.buf.endMark..] == tail;
    assert Prologue(r) + r.displayText + tail == r.buf.chars;
  }

  /** `start` needs a ready document and leaves it running with a fresh run at index 0. */
  lemma StartRuns(d: Doc, now: real)
    requires Valid(d) && IsReady(d)
    ensures IsRunning(Start(d, now)) && Start(d, now).run.value.index == 0
    ensures Start(d, now).signals == d.signals + [Started]
  {
  }

  /** An `insert` on a ready document starts the run first (cold start). */
  lemma InsertColdStart(d: Doc, ch: char, overwrite: bool, lenient: bool)
    requires Valid(d) && IsReady(d)
    ensures var r := Insert(d, ch, overwrite, lenient);
      && r.run.Some? && r.run.value.text == d.matchText
      && |r.signals| >= |d.signals| + 2 && r.signals[..|d.signals| + 1] == d.signals + [Started]
  {
  }

  /**
   * The run's cursor moves exactly when `correct or overwrite` holds (and
   * there is a character left), and the buffer keeps its length on an
   * overwriting insert and grows by one otherwise.
   */
  lemma InsertAdvances(d: Doc, ch: char, overwrite: bool, lenient: bool)
    requires Valid(d)
    ensures var r := Insert(d, ch, overwrite, lenient);
      var r0 := StartedRun(d);
      var advance := ShouldAdvance(d, ch, overwrite);
      && r.run.value.index == r0.index + (if advance && r0.index < |r0.text| then 1 else 0)
      && r.run.value.undo == r0.undo + [if advance && r0.index < |r0.text| then RunStats.Overwrote(r0.text[r0.index]) else RunStats.Inserted]
      && |r.buf.chars| == |d.buf.chars| + (if advance && d.buf.cursor < |d.buf.chars| then 0 else 1)
      && r.buf.chars[d.buf.cursor] == ch
      && Prologue(r) == Prologue(d)
      && d.buf.cursor < r.buf.cursor
  {
    var r := Insert(d, ch, overwrite, lenient);
    assert ShouldAdvance(d, ch, overwrite) <==> Correct(d, ch) || overwrite;
    assert r.buf.chars[..d.start] == r.buf.chars[..d.buf.cursor][..d.start];
  }

  /**
   * While a first error is pending, `insert` only moves the run's cursor:
   * nothing is visited, no signal is emitted, the first error stays.
   */
  lemma InsertWhileBlocked(d: Doc, ch: char, overwrite: bool, lenient: bool)
    requires Valid(d) && d.firstError.Some?
    ensures var r := Insert(d, ch, overwrite, lenient);
      && r.run == Some(RunStats.Advance(d.run.value, ShouldAdvance(d, ch, overwrite)))
      && r.run.value.marks == d.run.value.marks
      && r.signals == d.signals
      && r.firstError == d.firstError
  {
  }

  /**
   * Without a pending error: a correct key emits progress with the run's
   * index after the visit and before the advance; then completion is
   * emitted exactly when the run is complete, a position signal otherwise.
   */
  lemma InsertUnblockedSignals(d: Doc, ch: char, overwrite: bool, lenient: bool)
    requires Valid(d) && d.firstError.None?
    ensures var r := Insert(d, ch, overwrite, lenient);
      var before := if d.run.None? then d.signals + [Started] else d.signals;
      var progress := if Correct(d, ch) then [Progress(StartedRun(d).index)] else [];
      var last := if IsFinished(r) then Completed else Position(r.buf.cursor);
      && r.signals == before + progress + [last]
      && (Completed in r.signals[|d.signals|..] <==> IsFinished(r))
      && r.run.value.marks == RunStats.Visit(StartedRun(d), Correct(d, ch)).marks
  {
    var r := Insert(d, ch, overwrite, lenient);
    var added := if d.run.None? then [Started] else [];
    var progress := if Correct(d, ch) then [Progress(StartedRun(d).index)] else [];
    var last := if IsFinished(r) then Completed else Position(r.buf.cursor);
    assert r.signals == d.signals + added + progress + [last];
    assert r.signals[|d.signals|..] == added + progress + [last];
    assert Completed !in added + progress;
  }

  /**
   * Without a pending error, a wrong key records the first error at the
   * cursor unless the mode is lenient; lenient mode never sets it, and a
   * correct key leaves none.
   */
  lemma InsertFirstError(d: Doc, ch: char, overwrite: bool, lenient: bool)
    requires Valid(d) && d.firstError.None?
    ensures var r := Insert(d, ch, overwrite, lenient);
      r.firstError == if !Correct(d, ch) && !lenient then Some(d.buf.cursor) else None
  {
  }

  /** `backspace` does nothing unless the document is running. */
  lemma BackspaceNeedsRunning(d: Doc, byWord: bool, protected: bool)
    requires Valid(d) && !IsRunning(d)
    ensures Backspace(d, byWord, protected) == d
  {
  }

  /**
   * `backspace` never moves the cursor forward, below `_start` or below the
   * mark; without protection it reaches the mark, with protection it stops
   * early only where the last position is not an error; it keeps the
   * prologue, and clears the first error once the cursor is at or before it.
   */
  lemma BackspaceBounds(d: Doc, byWord: bool, protected: bool)
    requires Valid(d) && IsRunning(d)
    ensures var r := Backspace(d, byWord, protected);
      var mark := BackMark(d, byWord);
      && d.start <= mark <= r.buf.cursor <= d.buf.cursor
      && (!protected ==> r.buf.cursor == mark)
      && (r.buf.cursor > mark ==> r == d || (protected && !RunStats.LastWasError(r.run.value)))
      && Prologue(r) == Prologue(d)
      && r.start == d.start && r.matchText == d.matchText
      && (d.firstError.Some? && r.buf.cursor <= d.firstError.value ==> r.firstError.None?)
      && (d.firstError.Some? && r.buf.cursor > d.firstError.value ==> r.firstError == d.firstError)
      && (d.firstError.None? ==> r.firstError.None?)
      && (protected && !RunStats.LastWasError(d.run.value) ==> r.buf == d.buf && r.run == d.run)
  {
  }

  /**
   * Protected backspace by word after three correct characters and one wrong
   * one, typed in overwrite mode over "abcd": only the error is taken back,
   * the correct "abc" stays typed and the target character returns.
   */
  lemma ProtectedBackspaceKeepsCorrectInput()
    ensures var run := RunStats.Run("abcd", [RunStats.Mark(true, 0), RunStats.Mark(true, 0), RunStats.Mark(true, 0), RunStats.Mark(false, 1)], 4,
                                    [RunStats.Overwrote('a'), RunStats.Overwrote('b'), RunStats.Overwrote('c'), RunStats.Overwrote('d')], None);
      var d := Doc(QtText.Buf("abcx", 4, 4), 0, "abcd", "abcd", "abcd", Some(run), Some(3), []);
      var r := Backspace(d, true, true);
      && Valid(d) && IsRunning(d) && BackMark(d, true) == 0
      && r.buf.chars == "abcd" && r.buf.cursor == 3
      && r.run.value.index == 3 && |r.run.value.undo| == 3
      && r.firstError.None? && r.signals == [Position(3)]
  {
    var run := RunStats.Run("abcd", [RunStats.Mark(true, 0), RunStats.Mark(true, 0), RunStats.Mark(true, 0), RunStats.Mark(false, 1)], 4,
                            [RunStats.Overwrote('a'), RunStats.Overwrote('b'), RunStats.Overwrote('c'), RunStats.Overwrote('d')], None);
    var d := Doc(QtText.Buf("abcx", 4, 4), 0, "abcd", "abcd", "abcd", Some(run), Some(3), []);
    assert QtText.SkipWordBack("abcx", 4) == 0 by {
      assert QtText.SkipWordBack("abcx", 1) == 0;
      assert QtText.SkipWordBack("abcx", 2) == 0;
      assert QtText.SkipWordBack("abcx", 3) == 0;
    }
    assert BackMark(d, true) == 0;
    var d1 := PopStep(d);
    assert d1.buf.chars == "abcd" && d1.buf.cursor == 3;
    assert d1.run.value.index == 3 && d1.run.value.marks[2].ok;
    assert Unwind(d, 0, true) == Unwind(d1, 0, true) == d1;
  }
}
