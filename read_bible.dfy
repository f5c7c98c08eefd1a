/** The verse-markup reader: a state machine over the events of an XML reader
    that tracks the current book, book index, chapter and verse, and hands a
    passage to a callback for every piece of text inside a verse. */
module ReadBible {
  import opened Wrappers
  import opened Decimal

  /** The events the XML reader yields, reduced to what the reader looks at. */
  datatype Event =
    | Start(tag: string, n: Option<string>)  // an opening tag and its `n` attribute, if any
    | Text(decoded: Option<string>)          // text content; None when unescaping or decoding fails
    | Eof
    | Other                                  // closing tags, self-closing tags such as `<v n="1"/>`, comments, ...
    | Malformed(reason: string)              // the XML reader's own error

  datatype Passage = Passage(book: string, bookIndex: nat, chapter: nat, verse: nat, text: string)

  datatype ReadError =
    | BadNumber(attribute: string)  // a `c` or `v` tag whose `n` is not a usize
    | XmlError(reason: string)
    | DecodeError
    | CallbackError(reason: string)

  /** What `read` returns, together with the passages the callback accepted
      before it returned (they are never taken back). */
  datatype Outcome =
    | Done(delivered: seq<Passage>)
    | Aborted(delivered: seq<Passage>, error: ReadError)

  /** The callback: given the passages it has already accepted and a new one, it
      accepts (None) or fails with a reason. Passing the history models a
      callback that keeps state between calls. */
  type Callback = (seq<Passage>, Passage) -> Option<string>

  datatype ReaderState = ReaderState(book: string, bookIndex: nat, chapter: nat, verse: nat)

  const Initial := ReaderState("", 0, 0, 0)

  const USIZE_MAX: nat := 0xFFFF_FFFF_FFFF_FFFF

  /** `str::parse::<usize>`: an optional leading '+', then at least one decimal
      digit, and a value that fits in 64 bits. */
  function ParseUsize(s: string): (r: Option<nat>)
    ensures r.Some? ==> r.value <= USIZE_MAX
    ensures s == [] ==> r.None?
  {
    var digits := if |s| > 0 && s[0] == '+' then s[1..] else s;
    if digits != [] && AllDigits(digits) && DigitsValue(digits) <= USIZE_MAX
    then Some(DigitsValue(digits))
    else None
  }

  /** Every number the reader can hold is read back from its own rendering. */
  lemma ParseUsizeOfRendering(n: nat)
    requires n <= USIZE_MAX
    ensures ParseUsize(NatToString(n)) == Some(n)
  {
    DigitsOfNatToString(n);
  }

  /** `parse::<usize>` refuses a character that is not a digit (a '+' is
      allowed only in front), a sign with no digits after it, and any value
      above `usize::MAX`. */
  lemma ParseUsizeRejects(s: string, i: nat, n: nat)
    ensures i < |s| && !IsDigit(s[i]) && !(i == 0 && s[i] == '+') ==> ParseUsize(s) == None
    ensures ParseUsize("+") == None
    ensures n > USIZE_MAX ==> ParseUsize(NatToString(n)) == None
  {
    if i < |s| && !IsDigit(s[i]) && !(i == 0 && s[i] == '+') {
      if s[0] == '+' {
        assert s[1..][i - 1] == s[i];
      }
    }
    if n > USIZE_MAX {
      DigitsOfNatToString(n);
      assert IsDigit(NatToString(n)[0]);
    }
    assert "+"[1..] == [];
  }

  /** `get_name` unwraps the `n` attribute, so the `b`, `c` and `v` tags must carry one. */
  predicate Named(e: Event) {
    e.Start? && e.tag in {"b", "c", "v"} ==> e.n.Some?
  }

  predicate WellFormed(events: seq<Event>) {
    forall i :: 0 <= i < |events| ==> Named(events[i])
  }

  function GetName(e: Event): string
    requires e.Start? && e.n.Some?
  {
    e.n.value
  }

  /** The guard in front of the callback: a book, a chapter and a verse are set. */
  predicate Located(st: ReaderState) {
    st.book != [] && st.chapter > 0 && st.verse > 0
  }

  /** A non-empty book name has been counted at least once. */
  predicate Counted(st: ReaderState) {
    st.book != [] ==> st.bookIndex >= 1
  }

  datatype StepResult =
    | Continue(state: ReaderState, emit: Option<Passage>)
    | Stop
    | Fail(error: ReadError)

  /** One turn of the reading loop, before the callback is involved. */
  function Step(st: ReaderState, e: Event): StepResult
    requires Named(e)
  {
    match e
    case Start(tag, _) =>
      if tag == "b" then
        var newBook := GetName(e);
        if newBook != st.book then Continue(st.(book := newBook, bookIndex := st.bookIndex + 1), None)
        else Continue(st, None)
      else if tag == "c" then
        match ParseUsize(GetName(e))
        case None => Fail(BadNumber(GetName(e)))
        case Some(c) => Continue(st.(chapter := c), None)
      else if tag == "v" then
        match ParseUsize(GetName(e))
        case None => Fail(BadNumber(GetName(e)))
        case Some(v) => Continue(st.(verse := v), None)
      else Continue(st, None)
    case Text(decoded) =>
      if Located(st) then
        match decoded
        case None => Fail(DecodeError)
        case Some(t) => Continue(st, Some(Passage(st.book, st.bookIndex, st.chapter, st.verse, t)))
      else Continue(st, None)
    case Eof => Stop
    case Malformed(reason) => Fail(XmlError(reason))
    case Other => Continue(st, None)
  }

  /** The reading loop from state `st`, with `delivered` already accepted. The
      end of the event sequence reads as Eof. */
  function Run(events: seq<Event>, st: ReaderState, delivered: seq<Passage>, callback: Callback): Outcome
    requires WellFormed(events)
    decreases |events|
  {
    if events == [] then Done(delivered)
    else
      match Step(st, events[0])
      case Stop => Done(delivered)
      case Fail(err) => Aborted(delivered, err)
      case Continue(next, emit) =>
        match emit
        case None => Run(events[1..], next, delivered, callback)
        case Some(p) =>
          match callback(delivered, p)
          case Some(reason) => Aborted(delivered, CallbackError(reason))
          case None => Run(events[1..], next, delivered + [p], callback)
  }

  /** `read`: the loop over the reader's events with the four mutable locators. */
  method Read(events: seq<Event>, callback: Callback) returns (outcome: Outcome)
    requires WellFormed(events)
    ensures outcome == Run(events, Initial, [], callback)
  {
    var currentBook: string := "";
    var currentChapter: nat := 0;
    var currentVerse: nat := 0;
    var bookIndex: nat := 0;
    var delivered: seq<Passage> := [];
    var i := 0;
    while i < |events|
      invariant 0 <= i <= |events|
      invariant Run(events, Initial, [], callback)
             == Run(events[i..], ReaderState(currentBook, bookIndex, currentChapter, currentVerse), delivered, callback)
    {
      var e := events[i];
      assert events[i..][0] == e && events[i..][1..] == events[i + 1..];
      match e {
        case Start(tag, _) =>
          if tag == "b" {
            var newBook := GetName(e);
            if newBook != currentBook {
              currentBook := newBook;
              bookIndex := bookIndex + 1;
            }
          } else if tag == "c" {
            var parsed := ParseUsize(GetName(e));
            if parsed.None? {
              return Aborted(delivered, BadNumber(GetName(e)));
            }
            currentChapter := parsed.value;
          } else if tag == "v" {
            var parsed := ParseUsize(GetName(e));
            if parsed.None? {
              return Aborted(delivered, BadNumber(GetName(e)));
            }
            currentVerse := parsed.value;
          }
        case Text(decoded) =>
          if |currentBook| > 0 && currentChapter > 0 && currentVerse > 0 {
            if decoded.None? {
              return Aborted(delivered, DecodeError);
            }
            var p := Passage(currentBook, bookIndex, currentChapter, currentVerse, decoded.value);
            var verdict := callback(delivered, p);
            if verdict.Some? {
              return Aborted(delivered, CallbackError(verdict.value));
            }
            delivered := delivered + [p];
          }
        case Eof =>
          return Done(delivered);
        case Malformed(reason) =>
          return Aborted(delivered, XmlError(reason));
        case Other =>
      }
      i := i + 1;
    }
    outcome := Done(delivered);
  }

  // ---------------------------------------------------------------------------
  // One step at a time

  /** A `b` tag counts a book exactly when its name differs from the current one;
      it leaves chapter and verse as they were. */
  lemma BookTagStep(st: ReaderState, name: string)
    ensures Step(st, Start("b", Some(name)))
         == Continue(ReaderState(name, st.bookIndex + (if name != st.book then 1 else 0), st.chapter, st.verse), None)
  {
  }

  /** A `c` tag overwrites the chapter with its parsed `n` (the verse is not reset)
      or aborts the read when `n` is not a number; `v` does the same for the verse. */
  lemma ChapterVerseTagStep(st: ReaderState, name: string)
    ensures Step(st, Start("c", Some(name)))
         == if ParseUsize(name).Some? then Continue(st.(chapter := ParseUsize(name).value), None)
            else Fail(BadNumber(name))
    ensures Step(st, Start("v", Some(name)))
         == if ParseUsize(name).Some? then Continue(st.(verse := ParseUsize(name).value), None)
            else Fail(BadNumber(name))
  {
  }

  /** Text is passed on, with exactly the current locators, only once a book, a
      chapter and a verse are set; before that it is dropped without being decoded. */
  lemma TextStep(st: ReaderState, decoded: Option<string>)
    ensures !Located(st) ==> Step(st, Text(decoded)) == Continue(st, None)
    ensures Located(st) && decoded.Some? ==>
      Step(st, Text(decoded))
      == Continue(st, Some(Passage(st.book, st.bookIndex, st.chapter, st.verse, decoded.value)))
    ensures Located(st) && decoded.None? ==> Step(st, Text(decoded)) == Fail(DecodeError)
  {
  }

  /** Other tags and other events change nothing. */
  lemma IgnoredStep(st: ReaderState, tag: string, n: Option<string>)
    requires tag !in {"b", "c", "v"}
    ensures Step(st, Start(tag, n)) == Continue(st, None)
    ensures Step(st, Other) == Continue(st, None)
  {
  }

  lemma StepKeepsCounted(st: ReaderState, e: Event)
    requires Named(e) && Counted(st)
    ensures Step(st, e).Continue? ==> Counted(Step(st, e).state)
  {
  }

  // ---------------------------------------------------------------------------
  // Whole reads

  predicate AllLocated(ps: seq<Passage>) {
    forall i :: 0 <= i < |ps| ==> ps[i].book != [] && ps[i].bookIndex >= 1 && ps[i].chapter > 0 && ps[i].verse > 0
  }

  /** Every passage that reaches the callback has a book, a book index of at
      least one, a chapter and a verse. */
  lemma {:induction false} RunDeliversLocated(events: seq<Event>, st: ReaderState, delivered: seq<Passage>, callback: Callback)
    requires WellFormed(events) && Counted(st) && AllLocated(delivered)
    ensures AllLocated(Run(events, st, delivered, callback).delivered)
    decreases |events|
  {
    if events != [] {
      StepKeepsCounted(st, events[0]);
      match Step(st, events[0])
      case Stop =>
      case Fail(_) =>
      case Continue(next, emit) =>
        match emit
        case None => RunDeliversLocated(events[1..], next, delivered, callback);
        case Some(p) =>
          if callback(delivered, p).None? {
            RunDeliversLocated(events[1..], next, delivered + [p], callback);
          }
    }
  }

  /** Passages already accepted are never taken back: the result extends them. */
  lemma {:induction false} RunExtendsDelivered(events: seq<Event>, st: ReaderState, delivered: seq<Passage>, callback: Callback)
    requires WellFormed(events)
    ensures delivered <= Run(events, st, delivered, callback).delivered
    decreases |events|
  {
    if events != [] {
      match Step(st, events[0])
      case Stop =>
      case Fail(_) =>
      case Continue(next, emit) =>
        match emit
        case None => RunExtendsDelivered(events[1..], next, delivered, callback);
        case Some(p) =>
          if callback(delivered, p).None? {
            RunExtendsDelivered(events[1..], next, delivered + [p], callback);
          }
    }
  }

  /** An error (from the reader, a number, decoding or the callback) ends the read
      at once: whatever follows in the stream is never looked at. */
  lemma {:induction false} AbortIsFinal(events: seq<Event>, rest: seq<Event>, st: ReaderState, delivered: seq<Passage>, callback: Callback)
    requires WellFormed(events) && WellFormed(rest)
    requires Run(events, st, delivered, callback).Aborted?
    ensures WellFormed(events + rest)
    ensures Run(events + rest, st, delivered, callback) == Run(events, st, delivered, callback)
    decreases |events|
  {
    assert WellFormed(events + rest) by {
      forall i | 0 <= i < |events + rest| ensures Named((events + rest)[i]) {
        if i >= |events| {
          assert (events + rest)[i] == rest[i - |events|];
        }
      }
    }
    assert (events + rest)[0] == events[0];
    assert (events + rest)[1..] == events[1..] + rest;
    match Step(st, events[0])
    case Stop =>
    case Fail(_) =>
    case Continue(next, emit) =>
      match emit
      case None => AbortIsFinal(events[1..], rest, next, delivered, callback);
      case Some(p) =>
        if callback(delivered, p).None? {
          AbortIsFinal(events[1..], rest, next, delivered + [p], callback);
        }
  }

  /** Eof ends the read with success: events after it are never looked at. */
  lemma {:induction false} EofIsFinal(events: seq<Event>, rest: seq<Event>, st: ReaderState, delivered: seq<Passage>, callback: Callback)
    requires WellFormed(events) && WellFormed(rest)
    ensures WellFormed(events + [Eof]) && WellFormed(events + [Eof] + rest)
    ensures Run(events + [Eof] + rest, st, delivered, callback) == Run(events + [Eof], st, delivered, callback)
    decreases |events|
  {
    assert WellFormed(events + [Eof] + rest) by {
      forall i | 0 <= i < |events + [Eof] + rest| ensures Named((events + [Eof] + rest)[i]) {
        if i < |events| {
          assert (events + [Eof] + rest)[i] == events[i];
        } else if i > |events| {
          assert (events + [Eof] + rest)[i] == rest[i - |events| - 1];
        }
      }
    }
    assert WellFormed(events + [Eof]) by {
      forall i | 0 <= i < |events + [Eof]| ensures Named((events + [Eof])[i]) {
        if i < |events| {
          assert (events + [Eof])[i] == events[i];
        }
      }
    }
    if events == [] {
      assert (events + [Eof] + rest)[0] == Eof;
      assert (events + [Eof])[0] == Eof;
    } else {
      assert (events + [Eof] + rest)[0] == events[0] && (events + [Eof])[0] == events[0];
      assert (events + [Eof] + rest)[1..] == events[1..] + [Eof] + rest;
      assert (events + [Eof])[1..] == events[1..] + [Eof];
      match Step(st, events[0])
      case Stop =>
      case Fail(_) =>
      case Continue(next, emit) =>
        match emit
        case None => EofIsFinal(events[1..], rest, next, delivered, callback);
        case Some(p) =>
          if callback(delivered, p).None? {
            EofIsFinal(events[1..], rest, next, delivered + [p], callback);
          }
    }
  }

  /** A callback that accepts every passage. */
  function AcceptAll(accepted: seq<Passage>, p: Passage): Option<string> {
    None
  }

  /** A stream with books A, A, B, A, and text before any verse. */
  function NumberingEvents(): seq<Event> {
    [ Text(Some("preamble")),
      Start("b", Some("A")), Start("c", Some("1")), Text(Some("dropped")), Start("v", Some("1")),
      Text(Some("a1")) ] + NumberingTail()
  }

  function NumberingTail(): seq<Event> {
    [ Start("b", Some("A")), Text(Some("a2")),
      Start("b", Some("B")), Text(Some("b1")),
      Start("b", Some("A")), Text(Some("a3")) ]
  }

  function NumberedPassages(): seq<Passage> {
    [ Passage("A", 1, 1, 1, "a1"), Passage("A", 1, 1, 1, "a2"),
      Passage("B", 2, 1, 1, "b1"), Passage("A", 3, 1, 1, "a3") ]
  }

  lemma NumberingTailRun()
    ensures WellFormed(NumberingTail())
    ensures Run(NumberingTail(), ReaderState("A", 1, 1, 1), NumberedPassages()[..1], AcceptAll)
         == Done(NumberedPassages())
  {
    var accept: Callback := AcceptAll;
    var done := NumberedPassages();
    var s2 := ReaderState("A", 1, 1, 1);
    var s3 := ReaderState("B", 2, 1, 1);
    var s4 := ReaderState("A", 3, 1, 1);
    assert done[..3] + [done[3]] == done && done[..2] + [done[2]] == done[..3];
    assert done[..1] + [done[1]] == done[..2];
    var t11 := [Text(Some("a3"))];
    var t10 := [Start("b", Some("A"))] + t11;
    var t9 := [Text(Some("b1"))] + t10;
    var t8 := [Start("b", Some("B"))] + t9;
    var t7 := [Text(Some("a2"))] + t8;
    var t6 := [Start("b", Some("A"))] + t7;
    assert t6 == NumberingTail();
    assert Run(t11, s4, done[..3], accept) == Done(done) by { assert t11[1..] == []; }
    assert Run(t10, s3, done[..3], accept) == Done(done) by { assert t10[1..] == t11; }
    assert Run(t9, s3, done[..2], accept) == Done(done) by { assert t9[1..] == t10; }
    assert Run(t8, s2, done[..2], accept) == Done(done) by { assert t8[1..] == t9; }
    assert Run(t7, s2, done[..1], accept) == Done(done) by { assert t7[1..] == t8; }
    assert Run(t6, s2, done[..1], accept) == Done(done) by { assert t6[1..] == t7; }
  }

  lemma NumberingWellFormed()
    ensures WellFormed(NumberingEvents())
  {
  }

  lemma ParseOne()
    ensures ParseUsize("1") == Some(1)
  {
    ParseUsizeOfRendering(1);
    assert NatToString(1) == "1";
  }

  /** Books A, A, B, A are numbered 1, 1, 2, 3: re-entering the current book does
      not count, returning to an earlier one does. Text before the first verse is
      dropped, and a new book resets neither chapter nor verse. */
  lemma BookNumberingExample()
    ensures WellFormed(NumberingEvents())
    ensures Run(NumberingEvents(), Initial, [], AcceptAll) == Done(NumberedPassages())
  {
    var accept: Callback := AcceptAll;
    var done := NumberedPassages();
    NumberingWellFormed();
    var t2 := [Start("c", Some("1")), Text(Some("dropped")), Start("v", Some("1")), Text(Some("a1"))] + NumberingTail();
    var t1 := [Start("b", Some("A"))] + t2;
    var t0 := [Text(Some("preamble"))] + t1;
    assert t0 == NumberingEvents();
    NumberingChapterRun();
    assert Run(t1, Initial, [], accept) == Done(done) by { assert t1[1..] == t2; }
    assert Run(t0, Initial, [], accept) == Done(done) by { assert t0[1..] == t1; }
  }

  /** From the first chapter marker on: text before the verse is dropped. */
  lemma NumberingChapterRun()
    ensures Run([Start("c", Some("1")), Text(Some("dropped")), Start("v", Some("1")), Text(Some("a1"))] + NumberingTail(),
                ReaderState("A", 1, 0, 0), [], AcceptAll)
         == Done(NumberedPassages())
  {
    var accept: Callback := AcceptAll;
    var done := NumberedPassages();
    ParseOne();
    NumberingVerseRun();
    var s0 := ReaderState("A", 1, 0, 0);
    var s1 := ReaderState("A", 1, 1, 0);
    var t4 := [Start("v", Some("1")), Text(Some("a1"))] + NumberingTail();
    var t3 := [Text(Some("dropped"))] + t4;
    var t2 := [Start("c", Some("1"))] + t3;
    assert t2 == [Start("c", Some("1")), Text(Some("dropped")), Start("v", Some("1")), Text(Some("a1"))] + NumberingTail();
    assert Run(t3, s1, [], accept) == Done(done) by { assert t3[1..] == t4; }
    assert Run(t2, s0, [], accept) == Done(done) by { assert t2[1..] == t3; }
  }

  /** From the first verse marker on: the verse is set, then `a1` is the
      first passage delivered. */
  lemma NumberingVerseRun()
    ensures Run([Start("v", Some("1")), Text(Some("a1"))] + NumberingTail(), ReaderState("A", 1, 1, 0), [], AcceptAll)
         == Done(NumberedPassages())
  {
    var accept: Callback := AcceptAll;
    var done := NumberedPassages();
    ParseOne();
    NumberingTailRun();
    var s1 := ReaderState("A", 1, 1, 0);
    var s2 := ReaderState("A", 1, 1, 1);
    assert [] + [done[0]] == done[..1];
    var t6 := NumberingTail();
    var t5 := [Text(Some("a1"))] + t6;
    var t4 := [Start("v", Some("1"))] + t5;
    assert t4 == [Start("v", Some("1")), Text(Some("a1"))] + NumberingTail();
    assert Run(t5, s2, [], accept) == Done(done) by { assert t5[1..] == t6; }
    assert Run(t4, s1, [], accept) == Done(done) by { assert t4[1..] == t5; }
  }
}
