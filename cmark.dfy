/** The inline run tokenizer (src/cmark.rs): one line of Markdown becomes a list of
    styled runs. The Markdown parser that produces the events (pulldown-cmark with
    strikethrough enabled, behind a text-merging stream) is not modelled; the
    tokenizer is given its event sequence. */
module Cmark {
  import opened Constants

  /** The container tags the tokenizer distinguishes; every other tag is `OtherTag`. */
  datatype Tag = Paragraph | Emphasis | Strong | Strikethrough | OtherTag

  /** Parser events: a container starts, text, a container ends, anything else. */
  datatype Event = Start(tag: Tag) | Text(text: string) | End | Other

  /** The Markdown parser: the event sequence of one line. */
  type Lexer = string -> seq<Event>

  /** A docx text run: its text, its size in half-points and its style flags. */
  datatype Run = Run(text: string, size: nat, italic: bool, bold: bool, strike: bool)

  /** `new_run_with_size`: an empty, unstyled run in the manuscript font size. */
  function NewRunWithSize(): (r: Run)
    ensures r.text == [] && r.size == FONT_SIZE && !r.italic && !r.bold && !r.strike
  {
    Run([], FONT_SIZE, false, false, false)
  }

  /** A run as the tokenizer makes them: manuscript size and at most one style. */
  predicate WellFormed(r: Run)
  {
    && r.size == FONT_SIZE
    && !(r.italic && r.bold) && !(r.italic && r.strike) && !(r.bold && r.strike)
  }

  /** Events on which the current run is pushed: a style start or any end. */
  predicate IsFlush(e: Event)
  {
    e.End? || e == Start(Emphasis) || e == Start(Strong) || e == Start(Strikethrough)
  }

  /** The number of flushing events, counted independently of the tokenizer. */
  function Flushes(events: seq<Event>): nat
  {
    if events == [] then 0 else (if IsFlush(events[0]) then 1 else 0) + Flushes(events[1..])
  }

  /** The concatenation of all text events. */
  function TextOf(events: seq<Event>): string
  {
    if events == [] then [] else (if events[0].Text? then events[0].text else []) + TextOf(events[1..])
  }

  /** The concatenation of the texts of some runs. */
  function Texts(runs: seq<Run>): string
  {
    if runs == [] then [] else runs[0].text + Texts(runs[1..])
  }

  /** The tokenizer's state: the runs pushed so far and the current run. */
  datatype Tokenizer = Tokenizer(runs: seq<Run>, run: Run)

  /** One event: a style start pushes the current run and opens a run with that
      style; text is appended to the current run; an end pushes it and opens a
      plain run; paragraph starts, other tags and other events change nothing. */
  function Step(t: Tokenizer, e: Event): Tokenizer
  {
    match e
    case Start(Emphasis) => Tokenizer(t.runs + [t.run], NewRunWithSize().(italic := true))
    case Start(Strong) => Tokenizer(t.runs + [t.run], NewRunWithSize().(bold := true))
    case Start(Strikethrough) => Tokenizer(t.runs + [t.run], NewRunWithSize().(strike := true))
    case Start(_) => t
    case Text(s) => t.(run := t.run.(text := t.run.text + s))
    case End => Tokenizer(t.runs + [t.run], NewRunWithSize())
    case Other => t
  }

  /** The state after a sequence of events, starting from no runs and a fresh run. */
  function Tokenize(events: seq<Event>): Tokenizer
  {
    if events == [] then Tokenizer([], NewRunWithSize())
    else Step(Tokenize(events[..|events| - 1]), events[|events| - 1])
  }

  /** `parse_paragraph`: the runs of one line; the run still open when the events
      run out is not returned. */
  method ParseParagraph(events: seq<Event>) returns (runs: seq<Run>)
    ensures runs == Tokenize(events).runs
    ensures |runs| == Flushes(events)
    ensures forall r <- runs :: WellFormed(r)
    ensures events == [] ==> runs == []
    ensures events != [] && events[|events| - 1] == End ==> Texts(runs) == TextOf(events)
  {
    runs := [];
    var run := NewRunWithSize();
    for i := 0 to |events|
      invariant Tokenize(events[..i]) == Tokenizer(runs, run)
    {
      assert events[..i + 1][..i] == events[..i];
      match events[i] {
        case Start(tag) =>
          match tag {
            case Paragraph =>
            case Emphasis =>
              runs := runs + [run];
              run := NewRunWithSize().(italic := true);
            case Strong =>
              runs := runs + [run];
              run := NewRunWithSize().(bold := true);
            case Strikethrough =>
              runs := runs + [run];
              run := NewRunWithSize().(strike := true);
            case OtherTag =>
          }
        case Text(text) =>
          run := run.(text := run.text + text);
        case End =>
          runs := runs + [run];
          run := NewRunWithSize();
        case Other =>
      }
    }
    assert events[..|events|] == events;
    TokenizeCount(events);
    TokenizeWellFormed(events);
    if events != [] && events[|events| - 1] == End {
      TokenizeEndedText(events);
    }
  }

  lemma {:induction false} FlushesAppend(events: seq<Event>, e: Event)
    ensures Flushes(events + [e]) == Flushes(events) + (if IsFlush(e) then 1 else 0)
  {
    if events != [] {
      assert (events + [e])[1..] == events[1..] + [e];
      FlushesAppend(events[1..], e);
    }
  }

  lemma {:induction false} TextOfAppend(events: seq<Event>, e: Event)
    ensures TextOf(events + [e]) == TextOf(events) + (if e.Text? then e.text else [])
  {
    if events != [] {
      assert (events + [e])[1..] == events[1..] + [e];
      TextOfAppend(events[1..], e);
    }
  }

  lemma {:induction false} TextsAppend(runs: seq<Run>, r: Run)
    ensures Texts(runs + [r]) == Texts(runs) + r.text
  {
    if runs != [] {
      assert (runs + [r])[1..] == runs[1..] + [r];
      TextsAppend(runs[1..], r);
    }
  }

  /** One run is returned per style start and per end event. */
  lemma {:induction false} TokenizeCount(events: seq<Event>)
    ensures |Tokenize(events).runs| == Flushes(events)
  {
    if events != [] {
      var n := |events|;
      assert events == events[..n - 1] + [events[n - 1]];
      TokenizeCount(events[..n - 1]);
      FlushesAppend(events[..n - 1], events[n - 1]);
    }
  }

  /** Every run, returned or open, has the manuscript size and at most one style. */
  lemma {:induction false} TokenizeWellFormed(events: seq<Event>)
    ensures forall r <- Tokenize(events).runs :: WellFormed(r)
    ensures WellFormed(Tokenize(events).run)
  {
    if events != [] {
      TokenizeWellFormed(events[..|events| - 1]);
    }
  }

  /** No text is lost or reordered: the returned runs followed by the open run
      spell out the text events in order. */
  lemma {:induction false} TokenizeText(events: seq<Event>)
    ensures Texts(Tokenize(events).runs) + Tokenize(events).run.text == TextOf(events)
  {
    if events != [] {
      var n := |events|;
      var prev := Tokenize(events[..n - 1]);
      assert events == events[..n - 1] + [events[n - 1]];
      TokenizeText(events[..n - 1]);
      TextOfAppend(events[..n - 1], events[n - 1]);
      TextsAppend(prev.runs, prev.run);
    }
  }

  /** When the last event is an end, every text event is in the returned runs;
      otherwise the text after the last flush is dropped. */
  lemma TokenizeEndedText(events: seq<Event>)
    requires events != [] && events[|events| - 1] == End
    ensures Texts(Tokenize(events).runs) == TextOf(events)
  {
    TokenizeText(events);
  }

  /** A style start pushes the current run, even an empty one, and opens an empty
      run carrying exactly that style. */
  lemma TokenizeStyleStart(events: seq<Event>, tag: Tag)
    requires tag == Emphasis || tag == Strong || tag == Strikethrough
    ensures Tokenize(events + [Start(tag)]).runs == Tokenize(events).runs + [Tokenize(events).run]
    ensures Tokenize(events + [Start(tag)]).run
         == Run([], FONT_SIZE, tag == Emphasis, tag == Strong, tag == Strikethrough)
  {
    assert (events + [Start(tag)])[..|events|] == events;
  }

  /** Paragraph starts, other tags and other events leave both the returned runs
      and the open run as they were. */
  lemma TokenizeIgnored(events: seq<Event>, e: Event)
    requires e == Start(Paragraph) || e == Start(OtherTag) || e == Other
    ensures Tokenize(events + [e]) == Tokenize(events)
  {
    assert (events + [e])[..|events|] == events;
  }

  /** The events of the unit-tested line
      "Hello world, this is a ~~complicated~~ *very simple* _example_.". */
  const EXAMPLE_EVENTS: seq<Event> :=
    [Start(Paragraph), Text("Hello world, this is a "),
     Start(Strikethrough), Text("complicated"), End, Text(" "),
     Start(Emphasis), Text("very simple"), End, Text(" "),
     Start(Emphasis), Text("example"), End, Text("."), End]

  /** Tokenizing one more event is one more step. */
  lemma TokenizeSnoc(events: seq<Event>, e: Event)
    ensures Tokenize(events + [e]) == Step(Tokenize(events), e)
  {
    assert (events + [e])[..|events|] == events;
  }

  lemma ParseParagraphExampleStart()
    ensures Tokenize(EXAMPLE_EVENTS[..5]) == Tokenizer([Run("Hello world, this is a ", FONT_SIZE, false, false, false),
                   Run("complicated", FONT_SIZE, false, false, true)],
                 Run("", FONT_SIZE, false, false, false))
  {
    TokenizeSnoc(EXAMPLE_EVENTS[..0], EXAMPLE_EVENTS[0]);
    assert EXAMPLE_EVENTS[..1] == EXAMPLE_EVENTS[..0] + [EXAMPLE_EVENTS[0]];
    assert Tokenize(EXAMPLE_EVENTS[..1]) == Tokenizer([],
      Run("", FONT_SIZE, false, false, false));
    TokenizeSnoc(EXAMPLE_EVENTS[..1], EXAMPLE_EVENTS[1]);
    assert EXAMPLE_EVENTS[..2] == EXAMPLE_EVENTS[..1] + [EXAMPLE_EVENTS[1]];
    assert Tokenize(EXAMPLE_EVENTS[..2]) == Tokenizer([],
      Run("Hello world, this is a ", FONT_SIZE, false, false, false));
    TokenizeSnoc(EXAMPLE_EVENTS[..2], EXAMPLE_EVENTS[2]);
    assert EXAMPLE_EVENTS[..3] == EXAMPLE_EVENTS[..2] + [EXAMPLE_EVENTS[2]];
    assert Tokenize(EXAMPLE_EVENTS[..3]) == Tokenizer([Run("Hello world, this is a ", FONT_SIZE, false, false, false)],
      Run("", FONT_SIZE, false, false, true));
    TokenizeSnoc(EXAMPLE_EVENTS[..3], EXAMPLE_EVENTS[3]);
    assert EXAMPLE_EVENTS[..4] == EXAMPLE_EVENTS[..3] + [EXAMPLE_EVENTS[3]];
    assert Tokenize(EXAMPLE_EVENTS[..4]) == Tokenizer([Run("Hello world, this is a ", FONT_SIZE, false, false, false)],
      Run("complicated", FONT_SIZE, false, false, true));
    TokenizeSnoc(EXAMPLE_EVENTS[..4], EXAMPLE_EVENTS[4]);
    assert EXAMPLE_EVENTS[..5] == EXAMPLE_EVENTS[..4] + [EXAMPLE_EVENTS[4]];
    assert Tokenize(EXAMPLE_EVENTS[..5]) == Tokenizer([Run("Hello world, this is a ", FONT_SIZE, false, false, false), Run("complicated", FONT_SIZE, false, false, true)],
      Run("", FONT_SIZE, false, false, false));
  }

  lemma ParseParagraphExampleMiddle()
    ensures Tokenize(EXAMPLE_EVENTS[..10]) == Tokenizer([Run("Hello world, this is a ", FONT_SIZE, false, false, false),
                   Run("complicated", FONT_SIZE, false, false, true),
                   Run(" ", FONT_SIZE, false, false, false),
                   Run("very simple", FONT_SIZE, true, false, false)],
                 Run(" ", FONT_SIZE, false, false, false))
  {
    ParseParagraphExampleStart();
    TokenizeSnoc(EXAMPLE_EVENTS[..5], EXAMPLE_EVENTS[5]);
    assert EXAMPLE_EVENTS[..6] == EXAMPLE_EVENTS[..5] + [EXAMPLE_EVENTS[5]];
    assert Tokenize(EXAMPLE_EVENTS[..6]) == Tokenizer([Run("Hello world, this is a ", FONT_SIZE, false, false, false), Run("complicated", FONT_SIZE, false, false, true)],
      Run(" ", FONT_SIZE, false, false, false));
    TokenizeSnoc(EXAMPLE_EVENTS[..6], EXAMPLE_EVENTS[6]);
    assert EXAMPLE_EVENTS[..7] == EXAMPLE_EVENTS[..6] + [EXAMPLE_EVENTS[6]];
    assert Tokenize(EXAMPLE_EVENTS[..7]) == Tokenizer([Run("Hello world, this is a ", FONT_SIZE, false, false, false), Run("complicated", FONT_SIZE, false, false, true), Run(" ", FONT_SIZE, false, false, false)],
      Run("", FONT_SIZE, true, false, false));
    TokenizeSnoc(EXAMPLE_EVENTS[..7], EXAMPLE_EVENTS[7]);
    assert EXAMPLE_EVENTS[..8] == EXAMPLE_EVENTS[..7] + [EXAMPLE_EVENTS[7]];
    assert Tokenize(EXAMPLE_EVENTS[..8]) == Tokenizer([Run("Hello world, this is a ", FONT_SIZE, false, false, false), Run("complicated", FONT_SIZE, false, false, true), Run(" ", FONT_SIZE, false, false, false)],
      Run("very simple", FONT_SIZE, true, false, false));
    TokenizeSnoc(EXAMPLE_EVENTS[..8], EXAMPLE_EVENTS[8]);
    assert EXAMPLE_EVENTS[..9] == EXAMPLE_EVENTS[..8] + [EXAMPLE_EVENTS[8]];
    assert Tokenize(EXAMPLE_EVENTS[..9]) == Tokenizer([Run("Hello world, this is a ", FONT_SIZE, false, false, false), Run("complicated", FONT_SIZE, false, false, true), Run(" ", FONT_SIZE, false, false, false), Run("very simple", FONT_SIZE, true, false, false)],
      Run("", FONT_SIZE, false, false, false));
    TokenizeSnoc(EXAMPLE_EVENTS[..9], EXAMPLE_EVENTS[9]);
    assert EXAMPLE_EVENTS[..10] == EXAMPLE_EVENTS[..9] + [EXAMPLE_EVENTS[9]];
    assert Tokenize(EXAMPLE_EVENTS[..10]) == Tokenizer([Run("Hello world, this is a ", FONT_SIZE, false, false, false), Run("complicated", FONT_SIZE, false, false, true), Run(" ", FONT_SIZE, false, false, false), Run("very simple", FONT_SIZE, true, false, false)],
      Run(" ", FONT_SIZE, false, false, false));
  }

  lemma ParseParagraphExampleEnd()
    ensures Tokenize(EXAMPLE_EVENTS[..15]) == Tokenizer([Run("Hello world, this is a ", FONT_SIZE, false, false, false),
                   Run("complicated", FONT_SIZE, false, false, true),
                   Run(" ", FONT_SIZE, false, false, false),
                   Run("very simple", FONT_SIZE, true, false, false),
                   Run(" ", FONT_SIZE, false, false, false),
                   Run("example", FONT_SIZE, true, false, false),
                   Run(".", FONT_SIZE, false, false, false)],
                 Run("", FONT_SIZE, false, false, false))
  {
    ParseParagraphExampleMiddle();
    TokenizeSnoc(EXAMPLE_EVENTS[..10], EXAMPLE_EVENTS[10]);
    assert EXAMPLE_EVENTS[..11] == EXAMPLE_EVENTS[..10] + [EXAMPLE_EVENTS[10]];
    assert Tokenize(EXAMPLE_EVENTS[..11]) == Tokenizer([Run("Hello world, this is a ", FONT_SIZE, false, false, false), Run("complicated", FONT_SIZE, false, false, true), Run(" ", FONT_SIZE, false, false, false), Run("very simple", FONT_SIZE, true, false, false), Run(" ", FONT_SIZE, false, false, false)],
      Run("", FONT_SIZE, true, false, false));
    TokenizeSnoc(EXAMPLE_EVENTS[..11], EXAMPLE_EVENTS[11]);
    assert EXAMPLE_EVENTS[..12] == EXAMPLE_EVENTS[..11] + [EXAMPLE_EVENTS[11]];
    assert Tokenize(EXAMPLE_EVENTS[..12]) == Tokenizer([Run("Hello world, this is a ", FONT_SIZE, false, false, false), Run("complicated", FONT_SIZE, false, false, true), Run(" ", FONT_SIZE, false, false, false), Run("very simple", FONT_SIZE, true, false, false), Run(" ", FONT_SIZE, false, false, false)],
      Run("example", FONT_SIZE, true, false, false));
    TokenizeSnoc(EXAMPLE_EVENTS[..12], EXAMPLE_EVENTS[12]);
    assert EXAMPLE_EVENTS[..13] == EXAMPLE_EVENTS[..12] + [EXAMPLE_EVENTS[12]];
    assert Tokenize(EXAMPLE_EVENTS[..13]) == Tokenizer([Run("Hello world, this is a ", FONT_SIZE, false, false, false), Run("complicated", FONT_SIZE, false, false, true), Run(" ", FONT_SIZE, false, false, false), Run("very simple", FONT_SIZE, true, false, false), Run(" ", FONT_SIZE, false, false, false), Run("example", FONT_SIZE, true, false, false)],
      Run("", FONT_SIZE, false, false, false));
    TokenizeSnoc(EXAMPLE_EVENTS[..13], EXAMPLE_EVENTS[13]);
    assert EXAMPLE_EVENTS[..14] == EXAMPLE_EVENTS[..13] + [EXAMPLE_EVENTS[13]];
    assert Tokenize(EXAMPLE_EVENTS[..14]) == Tokenizer([Run("Hello world, this is a ", FONT_SIZE, false, false, false), Run("complicated", FONT_SIZE, false, false, true), Run(" ", FONT_SIZE, false, false, false), Run("very simple", FONT_SIZE, true, false, false), Run(" ", FONT_SIZE, false, false, false), Run("example", FONT_SIZE, true, false, false)],
      Run(".", FONT_SIZE, false, false, false));
    TokenizeSnoc(EXAMPLE_EVENTS[..14], EXAMPLE_EVENTS[14]);
    assert EXAMPLE_EVENTS[..15] == EXAMPLE_EVENTS[..14] + [EXAMPLE_EVENTS[14]];
    assert Tokenize(EXAMPLE_EVENTS[..15]) == Tokenizer([Run("Hello world, this is a ", FONT_SIZE, false, false, false), Run("complicated", FONT_SIZE, false, false, true), Run(" ", FONT_SIZE, false, false, false), Run("very simple", FONT_SIZE, true, false, false), Run(" ", FONT_SIZE, false, false, false), Run("example", FONT_SIZE, true, false, false), Run(".", FONT_SIZE, false, false, false)],
      Run("", FONT_SIZE, false, false, false));
  }

  /** The unit-tested line yields seven runs: the plain text around the styled
      parts, the struck-through word and the two emphasised phrases. */
  lemma ParseParagraphExample()
    ensures Tokenize(EXAMPLE_EVENTS).runs
         == [Run("Hello world, this is a ", FONT_SIZE, false, false, false),
             Run("complicated", FONT_SIZE, false, false, true),
             Run(" ", FONT_SIZE, false, false, false),
             Run("very simple", FONT_SIZE, true, false, false),
             Run(" ", FONT_SIZE, false, false, false),
             Run("example", FONT_SIZE, true, false, false),
             Run(".", FONT_SIZE, false, false, false)]
  {
    ParseParagraphExampleEnd();
    assert EXAMPLE_EVENTS[..15] == EXAMPLE_EVENTS;
  }
}
