/**
 * The typing document and the typing widget of amphetype/typer.py as
 * objects.  `LessonDocument` keeps the document buffer, its cursors and the
 * run in fields and changes them step by step as the source does; each
 * method is proved to leave exactly the state that the matching function of
 * module `Lesson` gives.  `TyperWidget` turns key presses into calls on its
 * document under the input options; its decisions are stated as functions
 * on document states with lemmas about them.
 */
module Typer {

  import opened Wrappers
  import QtText
  import RunStats
  import TyperText
  import Lesson

  class LessonDocument {
    var buffer: seq<char>
    var cursor: nat
    var endMark: nat
    var start: nat
    var originalText: string
    var matchText: string
    var displayText: string
    var run: Option<RunStats.Run>
    var firstError: Option<nat>
    var signals: seq<Lesson.Signal>

    /** The document as a value. */
    function State(): Lesson.Doc
      reads this
    {
      Lesson.Doc(QtText.Buf(buffer, cursor, endMark), start, originalText, matchText, displayText,
                 run, firstError, signals)
    }

    ghost predicate Valid()
      reads this
    {
      Lesson.Valid(State())
    }

    /** A new document holds the default text, without prologue or epilogue. */
    constructor ()
      ensures State() == Lesson.SetText([], TyperText.DEFAULT_TEXT, "", "")
      ensures Valid()
    {
      buffer, cursor, endMark, start := [], 0, 0, 0;
      originalText, matchText, displayText := [], [], [];
      run, firstError, signals := None, None, [];
      new;
      SetText(TyperText.DEFAULT_TEXT, "", "");
    }

    /** `set_text`: clears the buffer, writes prologue and epilogue, installs the texts, resets. */
    method SetText(text: string, prologue: string, epilogue: string)
      modifies this
      ensures State() == Lesson.SetText(old(signals), text, prologue, epilogue)
      ensures Valid()
    {
      // The cleared document receives the prologue, then the epilogue.
      buffer := prologue;
      var pos := |buffer|;
      buffer := buffer + epilogue;
      originalText := TyperText.EffectiveText(text);
      matchText := TyperText.MatchText(text);
      displayText := TyperText.DisplayText(text);
      start, endMark, cursor := pos, pos, pos;
      Lesson.SetTextResets(State(), signals, text, prologue, epilogue);
      Reset();
    }

    /** `reset`. */
    method Reset()
      requires Lesson.Layout(State())
      modifies this
      ensures State() == Lesson.Reset(old(State()))
      ensures Valid()
    {
      // The active region's text is replaced by the display text.
      var shifted := if cursor <= endMark then start + |displayText|
                     else cursor - (endMark - start) + |displayText|;
      buffer := buffer[..start] + displayText + buffer[endMark..];
      endMark := start + |displayText|;
      cursor := shifted;
      if cursor != start {
        cursor := start;
        signals := signals + [Lesson.Position(cursor)];
      }
      run := None;
      firstError := None;
      signals := signals + [Lesson.Ready(matchText)];
    }

    predicate IsReady()
      reads this
    {
      run.None?
    }

    predicate IsRunning()
      requires Valid()
      reads this
    {
      Lesson.IsRunning(State())
    }

    predicate IsFinished()
      requires Valid()
      reads this
    {
      Lesson.IsFinished(State())
    }

    /** `start`: the warm start at clock value `now`. */
    method Start(now: real)
      requires Valid() && IsReady()
      modifies this
      ensures State() == Lesson.Start(old(State()), now)
      ensures Valid()
    {
      run := Some(RunStats.Make(matchText, Some(now)));
      signals := signals + [Lesson.Started];
    }

    /** `actual_insert`. */
    method ActualInsert(ch: char, overwrite: bool)
      requires QtText.Valid(QtText.Buf(buffer, cursor, endMark))
      modifies this`buffer, this`cursor, this`endMark
      ensures QtText.Buf(buffer, cursor, endMark) == Lesson.ActualInsert(old(QtText.Buf(buffer, cursor, endMark)), ch, overwrite)
    {
      var b := QtText.InsertText(QtText.Buf(buffer, cursor, endMark), ch);
      if overwrite {
        b := QtText.DeleteChar(b);
      }
      if QtText.AtBlockEnd(b.chars, b.cursor) {
        b := b.(cursor := QtText.NextCharacter(b.chars, b.cursor));
      }
      buffer, cursor, endMark := b.chars, b.cursor, b.endMark;
    }

    /** `insert(char, overwrite, lenient)`. */
    method Insert(ch: char, overwrite: bool, lenient: bool)
      requires Valid()
      modifies this
      ensures State() == Lesson.Insert(old(State()), ch, overwrite, lenient)
      ensures Valid()
    {
      if run.None? {
        run := Some(RunStats.Make(matchText, None));
        signals := signals + [Lesson.Started];
      }
      var r := run.value;
      var correct := RunStats.Current(r) == Some(ch);
      var shouldAdvance := correct || overwrite;
      if firstError.Some? {
        run := Some(RunStats.Advance(r, shouldAdvance));
        ActualInsert(ch, shouldAdvance);
        return;
      }
      r := RunStats.Visit(r, correct);
      run := Some(r);
      if correct {
        signals := signals + [Lesson.Progress(r.index)];
      } else if !lenient {
        firstError := Some(cursor);
      }
      run := Some(RunStats.Advance(r, shouldAdvance));
      ActualInsert(ch, shouldAdvance);
      if RunStats.IsComplete(run.value) {
        signals := signals + [Lesson.Completed];
      } else {
        signals := signals + [Lesson.Position(cursor)];
      }
    }

    /** One pass of the backspace loop: undo the run's newest edit in the buffer. */
    method PopStep()
      requires Lesson.Core(State()) && run.Some? && cursor > start
      modifies this`buffer, this`cursor, this`endMark, this`run
      ensures State() == Lesson.PopStep(old(State()))
    {
      var (r, c) := RunStats.PopChar(run.value);
      run := Some(r);
      if c.Some? {
        var b := QtText.InsertText(QtText.Buf(buffer, cursor, endMark), c.value);
        buffer, cursor, endMark := b.chars, QtText.PreviousCharacter(b.cursor), b.endMark;
      }
      var b := QtText.DeletePreviousChar(QtText.Buf(buffer, cursor, endMark));
      buffer, cursor, endMark := b.chars, b.cursor, b.endMark;
    }

    /** `backspace(by_word, protected)`. */
    method Backspace(byWord: bool, protected: bool)
      requires Valid()
      modifies this
      ensures State() == Lesson.Backspace(old(State()), byWord, protected)
      ensures Valid()
    {
      if !IsRunning() {
        return;
      }
      var mark := Lesson.BackMark(State(), byWord);
      if mark == cursor {
        return;
      }
      ghost var u := Lesson.Unwind(State(), mark, protected);
      while cursor > mark
        invariant Lesson.Core(State()) && run.Some? && start <= mark
        invariant Lesson.Unwind(State(), mark, protected) == u
        decreases cursor
      {
        if protected && !RunStats.LastWasError(run.value) {
          break;
        }
        PopStep();
      }
      assert State() == u;
      if firstError.Some? && cursor <= firstError.value {
        firstError := None;
      }
      signals := signals + [Lesson.Position(cursor)];
    }
  }

  // -----------------------------------------------------------------------
  // The widget.

  /** The input options of `TyperOptions`. */
  datatype Options = Options(lenientMode: bool, requireSpace: bool, overwriteMode: bool, limitBackspace: bool)

  /** `TyperOptions.defaults`. */
  const DEFAULT_OPTIONS: Options := Options(lenientMode := false, requireSpace := true,
                                            overwriteMode := true, limitBackspace := false)

  datatype Key = BackspaceKey | BackKey | EnterKey | ReturnKey | EscapeKey | OtherKey

  datatype Modifier = ControlModifier | MetaModifier | AltModifier | ShiftModifier | KeypadModifier

  datatype KeyEvent = KeyEvent(key: Key, modifiers: set<Modifier>, text: string)

  /** What becomes of a key event: accepted, ignored, or the `TypeError` of `ord` on a text of several characters. */
  datatype KeyOutcome = Accepted | Ignored | TypeError

  /** `TyperWidget.insert(char)` on a document state. */
  function WidgetInsert(d: Lesson.Doc, opts: Options, ch: char, now: real): (r: Lesson.Doc)
    requires Lesson.Valid(d)
    ensures Lesson.Valid(r)
  {
    if Lesson.IsFinished(d) then d
    else if !Lesson.IsRunning(d) && opts.requireSpace then
      (if ch == ' ' then Lesson.Start(d, now) else d)
    else Lesson.Insert(d, ch, opts.overwriteMode, opts.lenientMode)
  }

  /** `TyperWidget.backspace(word)` on a document state. */
  function WidgetBackspace(d: Lesson.Doc, opts: Options, word: bool): (r: Lesson.Doc)
    requires Lesson.Valid(d)
    ensures Lesson.Valid(r)
  {
    if !Lesson.IsRunning(d) then d
    else Lesson.Backspace(d, word, opts.limitBackspace)
  }

  /** A word-wise backspace is asked for by Control, Meta or Alt. */
  predicate ByWord(evt: KeyEvent) {
    ControlModifier in evt.modifiers || MetaModifier in evt.modifiers || AltModifier in evt.modifiers
  }

  /** `TyperWidget.keyPressEvent` on a document state. */
  function WidgetKeyPress(d: Lesson.Doc, opts: Options, evt: KeyEvent, now: real): (res: (Lesson.Doc, KeyOutcome))
    requires Lesson.Valid(d)
    ensures Lesson.Valid(res.0)
  {
    match evt.key
    case BackspaceKey => (WidgetBackspace(d, opts, ByWord(evt)), Accepted)
    case BackKey => (WidgetBackspace(d, opts, ByWord(evt)), Accepted)
    case EnterKey => (WidgetInsert(d, opts, TyperText.RETURN_CHAR, now), Accepted)
    case ReturnKey => (WidgetInsert(d, opts, TyperText.RETURN_CHAR, now), Accepted)
    case EscapeKey => (Lesson.Reset(d), Accepted)
    case OtherKey =>
      if evt.text == [] then (d, Ignored)
      else if |evt.text| > 1 then (d, TypeError)
      else if evt.text[0] as int >= 32 then (WidgetInsert(d, opts, evt.text[0], now), Accepted)
      else (d, Ignored)
  }

  class TyperWidget {
    var settings: Options
    var lesson: LessonDocument?

    constructor (settings: Options)
      ensures this.settings == settings && lesson == null
    {
      this.settings := settings;
      lesson := null;
    }

    /** `setLesson`: the widget now works on `doc`. */
    method SetLesson(doc: LessonDocument)
      modifies this`lesson
      ensures lesson == doc
    {
      lesson := doc;
    }

    /** `insert(char)`, with the clock value a warm start would read. */
    method Insert(ch: char, now: real)
      requires lesson != null ==> lesson.Valid()
      modifies lesson
      ensures lesson != null ==> lesson.State() == WidgetInsert(old(lesson.State()), settings, ch, now)
      ensures lesson != null ==> lesson.Valid()
    {
      if lesson == null || lesson.IsFinished() {
        return;
      }
      if !lesson.IsRunning() && settings.requireSpace {
        if ch == ' ' {
          lesson.Start(now);
        }
        return;
      }
      lesson.Insert(ch, settings.overwriteMode, settings.lenientMode);
    }

    /** `backspace(word)`. */
    method Backspace(word: bool)
      requires lesson != null ==> lesson.Valid()
      modifies lesson
      ensures lesson != null ==> lesson.State() == WidgetBackspace(old(lesson.State()), settings, word)
      ensures lesson != null ==> lesson.Valid()
    {
      if lesson == null || !lesson.IsRunning() {
        return;
      }
      lesson.Backspace(word, settings.limitBackspace);
    }

    /** `keyPressEvent(evt)`. */
    method KeyPress(evt: KeyEvent, now: real) returns (outcome: KeyOutcome)
      requires lesson != null ==> lesson.Valid()
      modifies lesson
      ensures lesson == null ==> outcome == Ignored
      ensures lesson != null ==> (lesson.State(), outcome) == WidgetKeyPress(old(lesson.State()), settings, evt, now)
      ensures lesson != null ==> lesson.Valid()
    {
      if lesson == null {
        return Ignored;
      }
      match evt.key {
        case BackspaceKey => Backspace(ByWord(evt));
        case BackKey => Backspace(ByWord(evt));
        case EnterKey => Insert(TyperText.RETURN_CHAR, now);
        case ReturnKey => Insert(TyperText.RETURN_CHAR, now);
        case EscapeKey => lesson.Reset();
        case OtherKey =>
          if evt.text == [] {
            return Ignored;
          } else if |evt.text| > 1 {
            return TypeError;
          } else if evt.text[0] as int >= 32 {
            Insert(evt.text[0], now);
          } else {
            return Ignored;
          }
      }
      return Accepted;
    }
  }

  // -----------------------------------------------------------------------
  // Properties of the widget's input rules.

  /** A finished lesson takes no more input. */
  lemma FinishedTakesNoInput(d: Lesson.Doc, opts: Options, ch: char, now: real, word: bool)
    requires Lesson.Valid(d) && Lesson.IsFinished(d)
    ensures WidgetInsert(d, opts, ch, now) == d
    ensures WidgetBackspace(d, opts, word) == d
  {
  }

  /**
   * With `require_space`, a ready lesson waits for a space: the space starts
   * it (a warm start, nothing typed), any other key is dropped.
   */
  lemma RequireSpaceWaitsForSpace(d: Lesson.Doc, opts: Options, ch: char, now: real)
    requires Lesson.Valid(d) && Lesson.IsReady(d) && opts.requireSpace
    ensures ch == ' ' ==> WidgetInsert(d, opts, ch, now) == Lesson.Start(d, now)
    ensures ch != ' ' ==> WidgetInsert(d, opts, ch, now) == d
    ensures Lesson.IsRunning(WidgetInsert(d, opts, ch, now)) <==> ch == ' '
  {
    Lesson.ExactlyOnePhase(d);
    if ch == ' ' {
      Lesson.StartRuns(d, now);
    }
  }

  /** Without `require_space`, the first key of a ready lesson is typed (a cold start). */
  lemma ColdStartWithoutRequireSpace(d: Lesson.Doc, opts: Options, ch: char, now: real)
    requires Lesson.Valid(d) && Lesson.IsReady(d) && !opts.requireSpace
    ensures WidgetInsert(d, opts, ch, now) == Lesson.Insert(d, ch, opts.overwriteMode, opts.lenientMode)
    ensures WidgetInsert(d, opts, ch, now).signals[|d.signals|] == Lesson.Started
  {
    Lesson.InsertColdStart(d, ch, opts.overwriteMode, opts.lenientMode);
    var r := WidgetInsert(d, opts, ch, now);
    assert r.signals[..|d.signals| + 1][|d.signals|] == Lesson.Started;
  }

  /**
   * Under the default options a ready lesson waits for a space, a running
   * one is typed over without leniency, and backspace is not limited.
   */
  lemma DefaultOptionsBehaviour(d: Lesson.Doc, ch: char, now: real, word: bool)
    requires Lesson.Valid(d)
    ensures Lesson.IsReady(d) ==> WidgetInsert(d, DEFAULT_OPTIONS, ch, now) == if ch == ' ' then Lesson.Start(d, now) else d
    ensures Lesson.IsRunning(d) ==> WidgetInsert(d, DEFAULT_OPTIONS, ch, now) == Lesson.Insert(d, ch, true, false)
    ensures Lesson.IsRunning(d) ==> WidgetBackspace(d, DEFAULT_OPTIONS, word) == Lesson.Backspace(d, word, false)
  {
  }

  /** Enter and Return type the return glyph; Escape resets; Backspace with Control, Meta or Alt goes by word. */
  lemma KeyBindings(d: Lesson.Doc, opts: Options, evt: KeyEvent, now: real)
    requires Lesson.Valid(d)
    ensures evt.key == EnterKey || evt.key == ReturnKey ==>
      WidgetKeyPress(d, opts, evt, now) == (WidgetInsert(d, opts, TyperText.RETURN_CHAR, now), Accepted)
    ensures evt.key == EscapeKey ==>
      WidgetKeyPress(d, opts, evt, now).0 == Lesson.Reset(d) && Lesson.IsReady(WidgetKeyPress(d, opts, evt, now).0)
    ensures (evt.key == BackspaceKey || evt.key == BackKey) && Lesson.IsRunning(d) ==>
      WidgetKeyPress(d, opts, evt, now).0 == Lesson.Backspace(d, ByWord(evt), opts.limitBackspace)
  {
  }

  /**
   * The printable-text branch: an empty text or a control character is
   * ignored and leaves the document as it was, a text of several characters
   * raises, and one printable character is typed.
   */
  lemma TextKeys(d: Lesson.Doc, opts: Options, evt: KeyEvent, now: real)
    requires Lesson.Valid(d) && evt.key == OtherKey
    ensures WidgetKeyPress(d, opts, evt, now).1 == Ignored <==>
      evt.text == [] || (|evt.text| == 1 && (evt.text[0] as int) < 32)
    ensures WidgetKeyPress(d, opts, evt, now).1 == TypeError <==> |evt.text| > 1
    ensures WidgetKeyPress(d, opts, evt, now).1 != Accepted ==> WidgetKeyPress(d, opts, evt, now).0 == d
    ensures |evt.text| == 1 && evt.text[0] as int >= 32 ==>
      WidgetKeyPress(d, opts, evt, now) == (WidgetInsert(d, opts, evt.text[0], now), Accepted)
  {
  }
}
