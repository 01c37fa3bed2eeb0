/**
  The `Printer` of `explode` and its `vte::Perform` callbacks. The printer
  keeps the printable characters seen since the last line it printed. Every
  dispatching callback (all but `print`, `put` and `unhook`) first prints the
  pending run, if there is one, as one `TEXT` line, then its own line; `put`
  and `unhook` do nothing.
  The state pairs that pending run with the lines printed so far.
 */
module Printer {
  import opened Events
  import opened TraceLines

  datatype State = State(chars: string, lines: seq<TraceLine>)

  const Initial: State := State("", [])

  // ---------------------------------------------------------------------
  // Views of a list of printed lines

  /** The characters of the `TEXT` lines, in order. */
  function TextOf(lines: seq<TraceLine>): string
  {
    if lines == [] then []
    else
      var last := lines[|lines| - 1];
      TextOf(lines[..|lines| - 1]) + (if last.Text? then last.chars else [])
  }

  /** The lines printed by dispatching callbacks, in order. */
  function Dispatched(lines: seq<TraceLine>): seq<TraceLine>
  {
    if lines == [] then []
    else
      var last := lines[|lines| - 1];
      Dispatched(lines[..|lines| - 1]) + (if last.IsDispatch() then [last] else [])
  }

  predicate NoEmptyText(lines: seq<TraceLine>) {
    forall i | 0 <= i < |lines| :: lines[i] != Text([])
  }

  /** Every `TEXT` line is immediately followed by the line of the callback that flushed it. */
  predicate TextsFlushed(lines: seq<TraceLine>) {
    forall i | 0 <= i < |lines| && lines[i].Text? :: i + 1 < |lines| && lines[i + 1].IsDispatch()
  }

  /** Only `TEXT` lines and dispatch lines: what the printer itself prints. */
  predicate PrinterLines(lines: seq<TraceLine>) {
    forall i | 0 <= i < |lines| :: lines[i].Text? || lines[i].IsDispatch()
  }

  lemma {:induction false} TextOfAppend(a: seq<TraceLine>, b: seq<TraceLine>)
    ensures TextOf(a + b) == TextOf(a) + TextOf(b)
    decreases |b|
  {
    if b == [] {
      assert a + b == a;
    } else {
      var b' := b[..|b| - 1];
      assert (a + b)[..|a + b| - 1] == a + b';
      TextOfAppend(a, b');
    }
  }

  lemma {:induction false} DispatchedAppend(a: seq<TraceLine>, b: seq<TraceLine>)
    ensures Dispatched(a + b) == Dispatched(a) + Dispatched(b)
    decreases |b|
  {
    if b == [] {
      assert a + b == a;
    } else {
      var b' := b[..|b| - 1];
      assert (a + b)[..|a + b| - 1] == a + b';
      DispatchedAppend(a, b');
    }
  }

  lemma TextsFlushedAppend(a: seq<TraceLine>, b: seq<TraceLine>)
    requires TextsFlushed(a) && TextsFlushed(b)
    ensures TextsFlushed(a + b)
  {
    forall i | 0 <= i < |a + b| && (a + b)[i].Text?
      ensures i + 1 < |a + b| && (a + b)[i + 1].IsDispatch()
    {
      if i < |a| {
        assert a[i].Text?;
      } else {
        assert b[i - |a|].Text?;
      }
    }
  }

  // ---------------------------------------------------------------------
  // The printer

  /** `Printer::append`. */
  function Append(s: State, c: char): (r: State)
    ensures r.lines == s.lines
    ensures r.chars == s.chars + [c]
  {
    s.(chars := s.chars + [c])
  }

  /**
    `Printer::flush`: prints the pending run as one `TEXT` line, unless it is
    empty, in which case nothing happens. No character is lost or invented.
   */
  function Flush(s: State): (r: State)
    ensures r.chars == []
    ensures s.chars == [] ==> r == s
    ensures s.chars != [] ==> r.lines == s.lines + [Text(s.chars)]
  {
    if s.chars == [] then s
    else State([], s.lines + [Text(s.chars)])
  }

  /** Flushing loses no character, prints no empty `TEXT` line and no dispatch line. */
  lemma FlushKeeps(s: State)
    ensures TextOf(Flush(s).lines) + Flush(s).chars == TextOf(s.lines) + s.chars
    ensures NoEmptyText(s.lines) ==> NoEmptyText(Flush(s).lines)
    ensures Dispatched(Flush(s).lines) == Dispatched(s.lines)
  {
    if s.chars != [] {
      var t := [Text(s.chars)];
      TextOfAppend(s.lines, t);
      DispatchedAppend(s.lines, t);
      assert t[..0] == [];
      assert TextOf(t) == s.chars;
      assert Dispatched(t) == [];
    } else {
      assert s.chars == [];
    }
  }

  /** Prints one line after the ones printed so far. */
  function Emit(s: State, l: TraceLine): (r: State)
    ensures r.chars == s.chars
    ensures r.lines == s.lines + [l]
  {
    s.(lines := s.lines + [l])
  }

  /**
    The line a dispatching callback prints after flushing: one kind of line
    per kind of callback, the control shown shifted by 0x40, the first
    intermediate, the final byte, the action and every CSI, OSC and DCS
    parameter kept in order.
   */
  function DispatchLine(e: Event): (l: TraceLine)
    requires e.IsDispatch() && Performable(e)
    ensures l.IsDispatch()
    ensures l.Ctrl? <==> e.Execute?
    ensures l.EscLine? <==> e.EscDispatch?
    ensures l.CsiLine? <==> e.CsiDispatch?
    ensures l.OscLine? <==> e.OscDispatch?
    ensures l.DcsLine? <==> e.Hook?
    ensures l.Ctrl? ==> l.letter as int == e.control + 0x40
    ensures l.EscLine? ==> l.escFinal == e.final && l.escInter == FirstIntermediate(e.intermediates)
    ensures l.CsiLine? ==> l.csiParams == e.params && l.action == e.action
    ensures l.CsiLine? ==> l.csiInter == FirstIntermediate(e.intermediates)
    ensures l.OscLine? ==> l.oscParams == e.oscParams
    ensures l.DcsLine? ==> l.dcsParams == e.params && l.dcsInter == FirstIntermediate(e.intermediates)
  {
    match e
    case Execute(b) => Ctrl(CtrlLetter(b))
    case EscDispatch(_, ints, _, b) => EscLine(FirstIntermediate(ints), b)
    case CsiDispatch(ps, ints, _, c) => CsiLine(FirstIntermediate(ints), ps, c)
    case OscDispatch(ps) => OscLine(ps)
    case Hook(ps, ints, _) => DcsLine(FirstIntermediate(ints), ps)
  }

  /**
    One callback. `print` only extends the pending run, `put` and `unhook`
    do nothing, and every other callback flushes and then prints its line,
    leaving the run empty.
   */
  function Step(s: State, e: Event): (r: State)
    requires Performable(e)
    ensures e.Print? ==> r == State(s.chars + [e.c], s.lines)
    ensures e.Put? || e.Unhook? ==> r == s
    ensures e.IsDispatch() ==> r.chars == []
  {
    if e.Print? then Append(s, e.c)
    else if e.IsDispatch() then Emit(Flush(s), DispatchLine(e))
    else s
  }

  /** The callbacks `es`, one after the other. */
  function Run(s: State, es: seq<Event>): State
    requires AllPerformable(es)
    decreases |es|
  {
    if es == [] then s else Run(Step(s, es[0]), es[1..])
  }

  /** The lines the dispatching callbacks among `es` print, in order. */
  function DispatchLines(es: seq<Event>): seq<TraceLine>
    requires AllPerformable(es)
  {
    if es == [] then []
    else (if es[0].IsDispatch() then [DispatchLine(es[0])] else []) + DispatchLines(es[1..])
  }

  // ---------------------------------------------------------------------
  // What a single callback keeps

  /** A callback adds no characters and loses none: printed text plus pending text grows by its own character. */
  lemma StepConserves(s: State, e: Event)
    requires Performable(e)
    ensures TextOf(Step(s, e).lines) + Step(s, e).chars
         == TextOf(s.lines) + s.chars + (if e.Print? then [e.c] else [])
  {
    var r := Step(s, e);
    if e.IsDispatch() {
      var f := Flush(s);
      TextOfAppend(f.lines, [DispatchLine(e)]);
      assert TextOf([DispatchLine(e)]) == [];
    }
  }

  /** The lines one callback prints. */
  function Emitted(s: State, e: Event): seq<TraceLine>
    requires Performable(e)
  {
    if e.IsDispatch() then (if s.chars == [] then [] else [Text(s.chars)]) + [DispatchLine(e)] else []
  }

  /** A callback only appends: the lines printed before stay as they were. */
  lemma StepLines(s: State, e: Event)
    requires Performable(e)
    ensures Step(s, e).lines == s.lines + Emitted(s, e)
  {
    if e.IsDispatch() {
      if s.chars != [] {
        assert (s.lines + [Text(s.chars)]) + [DispatchLine(e)]
            == s.lines + ([Text(s.chars)] + [DispatchLine(e)]);
      } else {
        assert [] + [DispatchLine(e)] == [DispatchLine(e)];
      }
    } else {
      assert s.lines + [] == s.lines;
    }
  }

  lemma NoEmptyTextAppend(a: seq<TraceLine>, b: seq<TraceLine>)
    requires NoEmptyText(a) && NoEmptyText(b)
    ensures NoEmptyText(a + b)
  {
    forall i | 0 <= i < |a + b|
      ensures (a + b)[i] != Text([])
    {
      if i < |a| {
        assert (a + b)[i] == a[i];
      } else {
        assert (a + b)[i] == b[i - |a|];
      }
    }
  }

  /** The lines one callback prints: at most one `TEXT` line, never empty, and only directly before the dispatch line. */
  lemma EmittedShape(s: State, e: Event)
    requires Performable(e)
    ensures PrinterLines(Emitted(s, e))
    ensures NoEmptyText(Emitted(s, e))
    ensures TextsFlushed(Emitted(s, e))
    ensures Dispatched(Emitted(s, e)) == if e.IsDispatch() then [DispatchLine(e)] else []
  {
    var added := Emitted(s, e);
    if e.IsDispatch() && s.chars != [] {
      var t, d := [Text(s.chars)], [DispatchLine(e)];
      assert added == t + d;
      DispatchedAppend(t, d);
      assert t[..0] == [] && d[..0] == [];
    } else if e.IsDispatch() {
      assert added[..0] == [];
    }
  }

  /**
    A callback appends only `TEXT` lines and dispatch lines: at most one
    `TEXT` line, never empty, and only directly before the dispatch line.
   */
  lemma StepEmits(s: State, e: Event)
    requires Performable(e)
    ensures Step(s, e).lines == s.lines + Emitted(s, e)
    ensures PrinterLines(Emitted(s, e))
    ensures NoEmptyText(s.lines) ==> NoEmptyText(Step(s, e).lines)
    ensures TextsFlushed(Emitted(s, e))
    ensures Dispatched(Emitted(s, e)) == if e.IsDispatch() then [DispatchLine(e)] else []
  {
    StepLines(s, e);
    EmittedShape(s, e);
    if NoEmptyText(s.lines) {
      NoEmptyTextAppend(s.lines, Emitted(s, e));
    }
  }

  lemma StepDispatched(s: State, e: Event)
    requires Performable(e)
    ensures Dispatched(Step(s, e).lines)
         == Dispatched(s.lines) + (if e.IsDispatch() then [DispatchLine(e)] else [])
  {
    StepEmits(s, e);
    DispatchedAppend(s.lines, Emitted(s, e));
  }

  lemma PrinterLinesAppend(a: seq<TraceLine>, b: seq<TraceLine>)
    requires PrinterLines(a) && PrinterLines(b)
    ensures PrinterLines(a + b)
  {
    forall i | 0 <= i < |a + b|
      ensures (a + b)[i].Text? || (a + b)[i].IsDispatch()
    {
      if i < |a| {
        assert (a + b)[i] == a[i];
      } else {
        assert (a + b)[i] == b[i - |a|];
      }
    }
  }

  // ---------------------------------------------------------------------
  // What a sequence of callbacks keeps

  lemma {:induction false} RunAppend(s: State, es: seq<Event>, e: Event)
    requires AllPerformable(es) && Performable(e)
    ensures AllPerformable(es + [e])
    ensures Run(s, es + [e]) == Step(Run(s, es), e)
    decreases |es|
  {
    assert AllPerformable(es + [e]) by {
      forall i | 0 <= i < |es + [e]|
        ensures Performable((es + [e])[i])
      {
        if i < |es| {
          assert (es + [e])[i] == es[i];
        }
      }
    }
    if es == [] {
      assert es + [e] == [e];
    } else {
      assert (es + [e])[1..] == es[1..] + [e];
      RunAppend(Step(s, es[0]), es[1..], e);
    }
  }

  /** A run of printable characters only extends the pending run; nothing is printed. */
  lemma {:induction false} RunPrintsOnly(s: State, es: seq<Event>)
    requires forall i | 0 <= i < |es| :: es[i].Print?
    ensures AllPerformable(es)
    ensures Run(s, es) == State(s.chars + Printed(es), s.lines)
    decreases |es|
  {
    if es != [] {
      var c, rest := [es[0].c], Printed(es[1..]);
      assert Run(s, es) == Run(State(s.chars + c, s.lines), es[1..]);
      RunPrintsOnly(State(s.chars + c, s.lines), es[1..]);
      assert Printed(es) == c + rest;
      assert (s.chars + c) + rest == s.chars + (c + rest);
    } else {
      assert s.chars + [] == s.chars;
    }
  }

  /**
    Every printable character ends up, in order, either in a `TEXT` line or
    in the pending run: the text printed plus the text pending is exactly the
    text received.
   */
  lemma {:induction false} RunConserves(s: State, es: seq<Event>)
    requires AllPerformable(es)
    ensures TextOf(Run(s, es).lines) + Run(s, es).chars == TextOf(s.lines) + s.chars + Printed(es)
    decreases |es|
  {
    if es != [] {
      var t := Step(s, es[0]);
      var r := Run(s, es);
      var c := if es[0].Print? then [es[0].c] else [];
      var before, rest := TextOf(s.lines) + s.chars, Printed(es[1..]);
      assert TextOf(t.lines) + t.chars == before + c by {
        StepConserves(s, es[0]);
      }
      assert TextOf(r.lines) + r.chars == TextOf(t.lines) + t.chars + rest by {
        assert r == Run(t, es[1..]);
        RunConserves(t, es[1..]);
      }
      assert Printed(es) == c + rest;
      calc {
        TextOf(r.lines) + r.chars;
        TextOf(t.lines) + t.chars + rest;
        (before + c) + rest;
        before + (c + rest);
        before + Printed(es);
      }
    } else {
      assert Printed(es) == [];
    }
  }

  /** The printer only ever appends lines, and only `TEXT` lines and dispatch lines. */
  lemma {:induction false} RunAppendsPrinterLines(s: State, es: seq<Event>)
    requires AllPerformable(es)
    ensures s.lines <= Run(s, es).lines
    ensures PrinterLines(Run(s, es).lines[|s.lines|..])
    decreases |es|
  {
    var r := Run(s, es);
    if es == [] {
      assert r.lines[|s.lines|..] == [];
    } else {
      var t := Step(s, es[0]);
      var e := Emitted(s, es[0]);
      assert r == Run(t, es[1..]);
      RunAppendsPrinterLines(t, es[1..]);
      var x := r.lines[|t.lines|..];
      assert r.lines == s.lines + (e + x) by {
        StepLines(s, es[0]);
        assert r.lines == t.lines + x;
      }
      assert r.lines[|s.lines|..] == e + x;
      EmittedShape(s, es[0]);
      PrinterLinesAppend(e, x);
    }
  }

  /** The dispatch lines appear in the order of their callbacks, one per callback. */
  lemma {:induction false} RunDispatchOrder(s: State, es: seq<Event>)
    requires AllPerformable(es)
    ensures Dispatched(Run(s, es).lines) == Dispatched(s.lines) + DispatchLines(es)
    decreases |es|
  {
    if es == [] {
      assert Dispatched(s.lines) + [] == Dispatched(s.lines);
    } else {
      var t := Step(s, es[0]);
      var d := if es[0].IsDispatch() then [DispatchLine(es[0])] else [];
      var a, b := Dispatched(s.lines), DispatchLines(es[1..]);
      assert Dispatched(Run(s, es).lines) == Dispatched(t.lines) + b by {
        assert Run(s, es) == Run(t, es[1..]);
        RunDispatchOrder(t, es[1..]);
      }
      assert Dispatched(t.lines) == a + d by {
        StepDispatched(s, es[0]);
      }
      assert DispatchLines(es) == d + b;
      ConcatAssoc(a, d, b);
    }
  }

  lemma ConcatAssoc(a: seq<TraceLine>, d: seq<TraceLine>, b: seq<TraceLine>)
    ensures (a + d) + b == a + (d + b)
  {
  }

  /** No `TEXT` line is empty, and each is followed by the line of the callback that flushed it. */
  lemma {:induction false} RunKeepsTextInvariants(s: State, es: seq<Event>)
    requires AllPerformable(es)
    ensures NoEmptyText(s.lines) ==> NoEmptyText(Run(s, es).lines)
    ensures TextsFlushed(s.lines) ==> TextsFlushed(Run(s, es).lines)
    decreases |es|
  {
    if es != [] {
      var t := Step(s, es[0]);
      StepEmits(s, es[0]);
      if TextsFlushed(s.lines) {
        TextsFlushedAppend(s.lines, Emitted(s, es[0]));
      }
      RunKeepsTextInvariants(t, es[1..]);
    }
  }

  /** An ESC line depends on the intermediates only through the first one; the parameters and the ignore flag never show. */
  lemma EscFirstIntermediateOnly(ps: seq<i64>, ps': seq<i64>, ints: seq<byte>, ints': seq<byte>,
                                 ign: bool, ign': bool, b: byte)
    ensures Format(DispatchLine(EscDispatch(ps, ints, ign, b)))
         == Format(DispatchLine(EscDispatch(ps', ints', ign', b)))
        <==> FirstIntermediate(ints) == FirstIntermediate(ints')
  {
    FormatInjective(EscLine(FirstIntermediate(ints), b), EscLine(FirstIntermediate(ints'), b));
  }

  /** A CSI line depends on the intermediates only through the first one; the ignore flag never shows. */
  lemma CsiFirstIntermediateOnly(ps: seq<i64>, ints: seq<byte>, ints': seq<byte>,
                                 ign: bool, ign': bool, c: char)
    ensures Format(DispatchLine(CsiDispatch(ps, ints, ign, c)))
         == Format(DispatchLine(CsiDispatch(ps, ints', ign', c)))
        <==> FirstIntermediate(ints) == FirstIntermediate(ints')
  {
    FormatInjective(CsiLine(FirstIntermediate(ints), ps, c), CsiLine(FirstIntermediate(ints'), ps, c));
  }

  /** A DCS line depends on the intermediates only through the first one; the ignore flag never shows. */
  lemma DcsFirstIntermediateOnly(ps: seq<i64>, ints: seq<byte>, ints': seq<byte>, ign: bool, ign': bool)
    ensures Format(DispatchLine(Hook(ps, ints, ign)))
         == Format(DispatchLine(Hook(ps, ints', ign')))
        <==> FirstIntermediate(ints) == FirstIntermediate(ints')
  {
    FormatInjective(DcsLine(FirstIntermediate(ints), ps), DcsLine(FirstIntermediate(ints'), ps));
  }
}
