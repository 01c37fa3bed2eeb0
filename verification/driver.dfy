/**
  The main loop of `explode`: for every frame of the recording it prints a
  `FRAME n` header (after a blank line, except before the first) and feeds
  the frame's callbacks to the one printer that lives for the whole run.
  Nothing flushes the printer at a frame boundary or at the end of the input.
 */
module Driver {
  import opened Events
  import opened TraceLines
  import opened Printer

  /** The lines printed before frame number `n`. */
  function Header(n: nat): seq<TraceLine>
  {
    (if n > 1 then [Blank] else []) + [FrameHeader(n)]
  }

  /** The frames `frames`, numbered from `n`, fed to the printer in state `s`. */
  function ExplodeFrom(s: State, n: nat, frames: seq<Frame>): State
    requires FramesPerformable(frames)
    decreases |frames|
  {
    if frames == [] then s
    else ExplodeFrom(Run(State(s.chars, s.lines + Header(n)), frames[0]), n + 1, frames[1..])
  }

  /** The whole run: the printer starts empty and the first frame is number 1. */
  function Explode(frames: seq<Frame>): State
    requires FramesPerformable(frames)
  {
    ExplodeFrom(Initial, 1, frames)
  }

  /** The text written to standard output, one string per line. */
  function Output(frames: seq<Frame>): seq<string>
    requires FramesPerformable(frames)
  {
    var lines := Explode(frames).lines;
    seq(|lines|, i requires 0 <= i < |lines| => Format(lines[i]))
  }

  /** The inner loop of `main`: every callback of one frame, in order. */
  method Feed(printer: State, frame: Frame) returns (r: State)
    requires AllPerformable(frame)
    ensures r == Run(printer, frame)
  {
    r := printer;
    var j := 0;
    while j < |frame|
      invariant 0 <= j <= |frame|
      invariant Run(r, frame[j..]) == Run(printer, frame)
    {
      assert frame[j..][1..] == frame[j + 1..];
      r := Step(r, frame[j]);
      j := j + 1;
    }
    assert frame[j..] == [];
  }

  /**
    The loop of `main`, with `frame_idx` counting frames from 1 and each
    frame's callbacks made one at a time. It prints what `Output` describes
    and leaves the printer holding `Explode(frames).chars`.
   */
  method ExplodeTrace(frames: seq<Frame>) returns (out: seq<string>, pending: string)
    requires FramesPerformable(frames)
    ensures out == Output(frames)
    ensures pending == Explode(frames).chars
  {
    var printer := Initial;
    var frameIdx := 1;
    var k := 0;
    while k < |frames|
      invariant 0 <= k <= |frames|
      invariant frameIdx == k + 1
      invariant ExplodeFrom(printer, frameIdx, frames[k..]) == Explode(frames)
    {
      ghost var before := printer;
      if frameIdx > 1 {
        printer := printer.(lines := printer.lines + [Blank]);
      }
      printer := printer.(lines := printer.lines + [FrameHeader(frameIdx)]);
      assert printer == State(before.chars, before.lines + Header(frameIdx));
      frameIdx := frameIdx + 1;
      var frame := frames[k];
      assert AllPerformable(frame);
      printer := Feed(printer, frame);
      assert frames[k..][1..] == frames[k + 1..];
      k := k + 1;
    }
    var lines := printer.lines;
    out := seq(|lines|, i requires 0 <= i < |lines| => Format(lines[i]));
    pending := printer.chars;
  }

  // ---------------------------------------------------------------------
  // Frame headers and blank lines

  /** The numbers of the `FRAME` headers among `lines`, in order. */
  function HeaderIndices(lines: seq<TraceLine>): seq<nat>
  {
    if lines == [] then []
    else
      var last := lines[|lines| - 1];
      HeaderIndices(lines[..|lines| - 1]) + (if last.FrameHeader? then [last.index] else [])
  }

  /** The numbers `from`, `from + 1`, ..., `count` of them. */
  function Numbered(from: nat, count: nat): (r: seq<nat>)
    ensures |r| == count
    ensures forall i | 0 <= i < count :: r[i] == from + i
  {
    seq(count, i requires 0 <= i < count => from + i)
  }

  /** A blank line is printed exactly before each header other than the first. */
  predicate BlanksSeparate(lines: seq<TraceLine>) {
    && (forall i | 0 <= i < |lines| && lines[i] == Blank ::
          i + 1 < |lines| && lines[i + 1].FrameHeader? && lines[i + 1].index > 1)
    && (forall i | 0 <= i < |lines| && lines[i].FrameHeader? && lines[i].index > 1 ::
          i > 0 && lines[i - 1] == Blank)
  }

  lemma {:induction false} HeaderIndicesAppend(a: seq<TraceLine>, b: seq<TraceLine>)
    ensures HeaderIndices(a + b) == HeaderIndices(a) + HeaderIndices(b)
    decreases |b|
  {
    if b == [] {
      assert a + b == a;
    } else {
      var b' := b[..|b| - 1];
      assert (a + b)[..|a + b| - 1] == a + b';
      HeaderIndicesAppend(a, b');
    }
  }

  lemma {:induction false} NoHeadersInPrinterLines(b: seq<TraceLine>)
    requires PrinterLines(b)
    ensures HeaderIndices(b) == []
    decreases |b|
  {
    if b != [] {
      NoHeadersInPrinterLines(b[..|b| - 1]);
    }
  }

  lemma BlanksSeparateAppend(a: seq<TraceLine>, b: seq<TraceLine>)
    requires BlanksSeparate(a) && BlanksSeparate(b)
    requires b != [] ==> !(b[0].FrameHeader? && b[0].index > 1)
    ensures BlanksSeparate(a + b)
  {
    var ab := a + b;
    forall i | 0 <= i < |ab| && ab[i] == Blank
      ensures i + 1 < |ab| && ab[i + 1].FrameHeader? && ab[i + 1].index > 1
    {
      if i < |a| {
        assert a[i] == Blank;
      } else {
        assert b[i - |a|] == Blank;
      }
    }
    forall i | 0 <= i < |ab| && ab[i].FrameHeader? && ab[i].index > 1
      ensures i > 0 && ab[i - 1] == Blank
    {
      if i < |a| {
        assert a[i] == ab[i];
      } else {
        assert b[i - |a|] == ab[i];
      }
    }
  }

  lemma PrinterLinesSeparate(b: seq<TraceLine>)
    requires PrinterLines(b)
    ensures BlanksSeparate(b)
    ensures b != [] ==> !(b[0].FrameHeader? && b[0].index > 1)
  {
    if b != [] {
      assert b[0].Text? || b[0].IsDispatch();
    }
    forall i | 0 <= i < |b|
      ensures b[i] != Blank && !b[i].FrameHeader?
    {
      assert b[i].Text? || b[i].IsDispatch();
    }
  }

  lemma HeaderIndicesOfHeader(n: nat)
    ensures HeaderIndices(Header(n)) == [n]
  {
    var h := Header(n);
    if n > 1 {
      assert h[..1] == [Blank];
      assert [Blank][..0] == [];
    } else {
      assert h[..0] == [];
    }
  }

  /** One frame appends its header and then only printer lines. */
  lemma FrameAppends(s: State, n: nat, frame: Frame)
    requires AllPerformable(frame)
    ensures var h := s.lines + Header(n);
      var r := Run(State(s.chars, h), frame).lines;
      h <= r && PrinterLines(r[|h|..])
  {
    RunAppendsPrinterLines(State(s.chars, s.lines + Header(n)), frame);
  }

  /** Each frame adds exactly one header, numbered one more than the previous. */
  lemma {:induction false} ExplodeFromHeaders(s: State, n: nat, frames: seq<Frame>)
    requires FramesPerformable(frames)
    ensures HeaderIndices(ExplodeFrom(s, n, frames).lines) == HeaderIndices(s.lines) + Numbered(n, |frames|)
    decreases |frames|
  {
    if frames == [] {
      assert HeaderIndices(s.lines) + Numbered(n, 0) == HeaderIndices(s.lines);
    } else {
      var h := s.lines + Header(n);
      var t := Run(State(s.chars, h), frames[0]);
      var r := ExplodeFrom(s, n, frames);
      var a := HeaderIndices(s.lines);
      var rest := Numbered(n + 1, |frames| - 1);
      assert HeaderIndices(t.lines) == a + [n] by {
        FrameAppends(s, n, frames[0]);
        var added := t.lines[|h|..];
        assert t.lines == h + added;
        HeaderIndicesOfHeader(n);
        NoHeadersInPrinterLines(added);
        HeaderIndicesAppend(s.lines, Header(n));
        HeaderIndicesAppend(h, added);
      }
      assert HeaderIndices(r.lines) == HeaderIndices(t.lines) + rest by {
        assert r == ExplodeFrom(t, n + 1, frames[1..]);
        ExplodeFromHeaders(t, n + 1, frames[1..]);
      }
      assert [n] + rest == Numbered(n, |frames|);
      assert (a + [n]) + rest == a + ([n] + rest);
    }
  }

  /** The blank lines stay exactly before the headers after the first. */
  lemma {:induction false} ExplodeFromBlanks(s: State, n: nat, frames: seq<Frame>)
    requires FramesPerformable(frames)
    requires BlanksSeparate(s.lines)
    ensures BlanksSeparate(ExplodeFrom(s, n, frames).lines)
    decreases |frames|
  {
    if frames != [] {
      var h := s.lines + Header(n);
      var t := Run(State(s.chars, h), frames[0]);
      assert BlanksSeparate(t.lines) by {
        FrameAppends(s, n, frames[0]);
        var added := t.lines[|h|..];
        assert t.lines == h + added;
        BlanksSeparateAppend(s.lines, Header(n));
        PrinterLinesSeparate(added);
        BlanksSeparateAppend(h, added);
      }
      assert ExplodeFrom(s, n, frames) == ExplodeFrom(t, n + 1, frames[1..]);
      ExplodeFromBlanks(t, n + 1, frames[1..]);
    }
  }

  // ---------------------------------------------------------------------
  // Text and dispatch lines across frames

  lemma {:induction false} PrintedAppend(a: seq<Event>, b: seq<Event>)
    ensures Printed(a + b) == Printed(a) + Printed(b)
    decreases |a|
  {
    if a == [] {
      assert a + b == b;
    } else {
      var c := if a[0].Print? then [a[0].c] else [];
      var x, y := Printed(a[1..]), Printed(b);
      assert Printed(a + b) == c + Printed(a[1..] + b) by {
        assert (a + b)[0] == a[0];
        assert (a + b)[1..] == a[1..] + b;
      }
      PrintedAppend(a[1..], b);
      assert c + (x + y) == (c + x) + y;
    }
  }

  lemma {:induction false} DispatchLinesAppend(a: seq<Event>, b: seq<Event>)
    requires AllPerformable(a) && AllPerformable(b)
    ensures AllPerformable(a + b)
    ensures DispatchLines(a + b) == DispatchLines(a) + DispatchLines(b)
    decreases |a|
  {
    assert AllPerformable(a + b) by {
      forall i | 0 <= i < |a + b|
        ensures Performable((a + b)[i])
      {
        if i < |a| {
          assert (a + b)[i] == a[i];
        } else {
          assert (a + b)[i] == b[i - |a|];
        }
      }
    }
    if a == [] {
      assert a + b == b;
    } else {
      assert (a + b)[1..] == a[1..] + b;
      DispatchLinesAppend(a[1..], b);
    }
  }

  lemma {:induction false} FlattenPerformable(frames: seq<Frame>)
    requires FramesPerformable(frames)
    ensures AllPerformable(Flatten(frames))
    decreases |frames|
  {
    if frames != [] {
      FlattenPerformable(frames[1..]);
      assert AllPerformable(frames[0]);
      DispatchLinesAppend(frames[0], Flatten(frames[1..]));
    }
  }

  /** Headers and blank lines hold no text and no dispatch line. */
  lemma HeaderViews(n: nat)
    ensures TextOf(Header(n)) == []
    ensures Dispatched(Header(n)) == []
    ensures NoEmptyText(Header(n)) && TextsFlushed(Header(n))
  {
    var h := Header(n);
    if n > 1 {
      assert h[..1] == [Blank];
      assert [Blank][..0] == [];
    } else {
      assert h[..0] == [];
    }
  }

  lemma HeaderHasNoText(a: seq<TraceLine>, n: nat)
    ensures TextOf(a + Header(n)) == TextOf(a)
    ensures Dispatched(a + Header(n)) == Dispatched(a)
    ensures NoEmptyText(a) ==> NoEmptyText(a + Header(n))
    ensures TextsFlushed(a) ==> TextsFlushed(a + Header(n))
  {
    HeaderViews(n);
    assert TextOf(a + Header(n)) == TextOf(a) + [] by {
      TextOfAppend(a, Header(n));
    }
    assert Dispatched(a + Header(n)) == Dispatched(a) + [] by {
      DispatchedAppend(a, Header(n));
    }
    if TextsFlushed(a) {
      TextsFlushedAppend(a, Header(n));
    }
  }

  /**
    Across frames, every printable character ends up in a `TEXT` line or in
    the pending run, in order; the run left pending at the end of a frame is
    continued by the next one.
   */
  lemma {:induction false} ExplodeFromConserves(s: State, n: nat, frames: seq<Frame>)
    requires FramesPerformable(frames)
    ensures TextOf(ExplodeFrom(s, n, frames).lines) + ExplodeFrom(s, n, frames).chars
         == TextOf(s.lines) + s.chars + Printed(Flatten(frames))
    decreases |frames|
  {
    if frames == [] {
      assert TextOf(s.lines) + s.chars + [] == TextOf(s.lines) + s.chars;
    } else {
      var h := State(s.chars, s.lines + Header(n));
      var t := Run(h, frames[0]);
      var r := ExplodeFrom(s, n, frames);
      var before := TextOf(s.lines) + s.chars;
      var p0, rest := Printed(frames[0]), Printed(Flatten(frames[1..]));
      assert TextOf(t.lines) + t.chars == before + p0 by {
        HeaderHasNoText(s.lines, n);
        RunConserves(h, frames[0]);
      }
      assert TextOf(r.lines) + r.chars == TextOf(t.lines) + t.chars + rest by {
        assert r == ExplodeFrom(t, n + 1, frames[1..]);
        ExplodeFromConserves(t, n + 1, frames[1..]);
      }
      assert Printed(Flatten(frames)) == p0 + rest by {
        PrintedAppend(frames[0], Flatten(frames[1..]));
      }
      assert (before + p0) + rest == before + (p0 + rest);
    }
  }

  /** Across frames, the dispatch lines follow the callbacks' order. */
  lemma {:induction false} ExplodeFromDispatch(s: State, n: nat, frames: seq<Frame>)
    requires FramesPerformable(frames)
    ensures AllPerformable(Flatten(frames))
    ensures Dispatched(ExplodeFrom(s, n, frames).lines) == Dispatched(s.lines) + DispatchLines(Flatten(frames))
    decreases |frames|
  {
    FlattenPerformable(frames);
    if frames == [] {
      assert Dispatched(s.lines) + [] == Dispatched(s.lines);
    } else {
      var h := State(s.chars, s.lines + Header(n));
      var t := Run(h, frames[0]);
      var r := ExplodeFrom(s, n, frames);
      FlattenPerformable(frames[1..]);
      var a, d, b := Dispatched(s.lines), DispatchLines(frames[0]), DispatchLines(Flatten(frames[1..]));
      assert Dispatched(t.lines) == a + d by {
        HeaderHasNoText(s.lines, n);
        RunDispatchOrder(h, frames[0]);
      }
      assert Dispatched(r.lines) == Dispatched(t.lines) + b by {
        assert r == ExplodeFrom(t, n + 1, frames[1..]);
        ExplodeFromDispatch(t, n + 1, frames[1..]);
      }
      assert DispatchLines(Flatten(frames)) == d + b by {
        DispatchLinesAppend(frames[0], Flatten(frames[1..]));
      }
      assert (a + d) + b == a + (d + b);
    }
  }

  /** Across frames, no `TEXT` line is empty and each is followed by the line that flushed it. */
  lemma {:induction false} ExplodeFromTextInvariants(s: State, n: nat, frames: seq<Frame>)
    requires FramesPerformable(frames)
    ensures NoEmptyText(s.lines) ==> NoEmptyText(ExplodeFrom(s, n, frames).lines)
    ensures TextsFlushed(s.lines) ==> TextsFlushed(ExplodeFrom(s, n, frames).lines)
    decreases |frames|
  {
    if frames != [] {
      var h := State(s.chars, s.lines + Header(n));
      var t := Run(h, frames[0]);
      assert ExplodeFrom(s, n, frames) == ExplodeFrom(t, n + 1, frames[1..]);
      HeaderHasNoText(s.lines, n);
      RunKeepsTextInvariants(h, frames[0]);
      ExplodeFromTextInvariants(t, n + 1, frames[1..]);
    }
  }

  /** One more frame is fed after the header that follows all earlier frames. */
  lemma {:induction false} ExplodeFromSnoc(s: State, n: nat, frames: seq<Frame>, f: Frame)
    requires FramesPerformable(frames) && AllPerformable(f)
    ensures FramesPerformable(frames + [f])
    ensures ExplodeFrom(s, n, frames + [f])
         == Run(State(ExplodeFrom(s, n, frames).chars,
                      ExplodeFrom(s, n, frames).lines + Header(n + |frames|)), f)
    decreases |frames|
  {
    var fs := frames + [f];
    assert FramesPerformable(fs) by {
      forall k | 0 <= k < |fs|
        ensures AllPerformable(fs[k])
      {
        if k < |frames| { assert fs[k] == frames[k]; } else { assert fs[k] == f; }
      }
    }
    if frames == [] {
      assert fs[0] == f && fs[1..] == [];
    } else {
      var t := Run(State(s.chars, s.lines + Header(n)), frames[0]);
      assert fs[0] == frames[0] && fs[1..] == frames[1..] + [f];
      assert ExplodeFrom(s, n, fs) == ExplodeFrom(t, n + 1, frames[1..] + [f]);
      assert ExplodeFrom(s, n, frames) == ExplodeFrom(t, n + 1, frames[1..]);
      ExplodeFromSnoc(t, n + 1, frames[1..], f);
    }
  }

  // ---------------------------------------------------------------------
  // The whole trace

  /** The headers read `FRAME 1`, `FRAME 2`, ... one per frame, in order. */
  lemma ExplodeFrameHeaders(frames: seq<Frame>)
    requires FramesPerformable(frames)
    ensures HeaderIndices(Explode(frames).lines) == Numbered(1, |frames|)
    ensures BlanksSeparate(Explode(frames).lines)
  {
    ExplodeFromHeaders(Initial, 1, frames);
    ExplodeFromBlanks(Initial, 1, frames);
    assert HeaderIndices([]) + Numbered(1, |frames|) == Numbered(1, |frames|);
  }

  /** Frame `k + 1` is fed to the printer as the earlier frames left it, after its own header. */
  lemma ExplodeNextFrame(frames: seq<Frame>, f: Frame)
    requires FramesPerformable(frames) && AllPerformable(f)
    ensures FramesPerformable(frames + [f])
    ensures Explode(frames + [f])
         == Run(State(Explode(frames).chars, Explode(frames).lines + Header(|frames| + 1)), f)
  {
    ExplodeFromSnoc(Initial, 1, frames, f);
  }

  /**
    The trace of frames `1..k + 1` is the trace of frames `1..k`, then the
    header of frame `k + 1`, then only lines of frame `k + 1`'s own
    callbacks: one dispatch line per dispatching callback, in order.
   */
  lemma ExplodeFrameLines(frames: seq<Frame>, f: Frame)
    requires FramesPerformable(frames) && AllPerformable(f)
    ensures FramesPerformable(frames + [f])
    ensures Explode(frames).lines + Header(|frames| + 1) <= Explode(frames + [f]).lines
    ensures var rest := Explode(frames + [f]).lines[|Explode(frames).lines| + |Header(|frames| + 1)|..];
            PrinterLines(rest) && Dispatched(rest) == DispatchLines(f)
  {
    ExplodeNextFrame(frames, f);
    var before := Explode(frames).lines + Header(|frames| + 1);
    var h := State(Explode(frames).chars, before);
    RunAppendsPrinterLines(h, f);
    RunDispatchOrder(h, f);
    var all := Run(h, f).lines;
    FrameRest(before, all);
    var d := Dispatched(before);
    assert Dispatched(all[|before|..]) == DispatchLines(f) by {
      assert Dispatched(all)[|d|..] == Dispatched(all[|before|..]);
      assert Dispatched(all)[|d|..] == DispatchLines(f);
    }
  }

  /** The lines after a prefix, and their dispatch lines. */
  lemma FrameRest(before: seq<TraceLine>, all: seq<TraceLine>)
    requires before <= all
    ensures all == before + all[|before|..]
    ensures Dispatched(all) == Dispatched(before) + Dispatched(all[|before|..])
  {
    assert all == before + all[|before|..];
    DispatchedAppend(before, all[|before|..]);
  }

  /**
    The `TEXT` lines followed by the run still pending hold exactly the
    printable characters of all frames. Every `TEXT` line is directly
    followed by the dispatch line that flushed it, so no run is printed
    at a frame boundary or at the end: whatever is pending then stays
    pending.
   */
  lemma ExplodeConserves(frames: seq<Frame>)
    requires FramesPerformable(frames)
    ensures TextOf(Explode(frames).lines) + Explode(frames).chars == Printed(Flatten(frames))
    ensures TextsFlushed(Explode(frames).lines)
  {
    ExplodeFromConserves(Initial, 1, frames);
    ExplodeFromTextInvariants(Initial, 1, frames);
    assert TextOf([]) + "" + Printed(Flatten(frames)) == Printed(Flatten(frames));
  }

  /**
    One dispatch line per dispatching callback, in callback order; no `TEXT`
    line is empty and each is immediately followed by the dispatch line that
    flushed it.
   */
  lemma ExplodeDispatchOrder(frames: seq<Frame>)
    requires FramesPerformable(frames)
    ensures AllPerformable(Flatten(frames))
    ensures Dispatched(Explode(frames).lines) == DispatchLines(Flatten(frames))
    ensures NoEmptyText(Explode(frames).lines)
    ensures TextsFlushed(Explode(frames).lines)
  {
    ExplodeFromDispatch(Initial, 1, frames);
    ExplodeFromTextInvariants(Initial, 1, frames);
    assert Dispatched([]) + DispatchLines(Flatten(frames)) == DispatchLines(Flatten(frames));
  }

  /** No line of the printed trace is an empty `TEXT ""`. */
  lemma OutputNoEmptyText(frames: seq<Frame>)
    requires FramesPerformable(frames)
    ensures forall i | 0 <= i < |Output(frames)| :: Output(frames)[i] != "TEXT \"\""
  {
    var lines := Explode(frames).lines;
    var out := Output(frames);
    ExplodeDispatchOrder(frames);
    forall i | 0 <= i < |out|
      ensures out[i] != "TEXT \"\""
    {
      assert out[i] == Format(lines[i]);
      FormatEmptyText(lines[i]);
    }
  }
}
