/**
  Concrete runs of `explode`, written as the lines it prints for small
  recordings.
 */
module Scenarios {
  import opened Wrappers
  import opened Decimal
  import opened Joining
  import opened Events
  import opened TraceLines
  import opened Printer
  import opened Driver

  /** `execute` shows a control by adding 0x40: BEL is `G`, ESC is `[`. */
  lemma ControlLetters()
    ensures CtrlLetter(0x07) == 'G' && CtrlLetter(0x1B) == '[' && CtrlLetter(0x0A) == 'J'
  {
  }

  lemma RunOne(s: State, e: Event)
    requires Performable(e)
    ensures Run(s, [e]) == Step(s, e)
  {
    assert [e][1..] == [];
  }

  lemma ExplodeOne(s: State, n: nat, f: Frame)
    requires AllPerformable(f)
    ensures ExplodeFrom(s, n, [f]) == Run(State(s.chars, s.lines + Header(n)), f)
  {
    assert [f][1..] == [];
  }

  /** One character, the SGR sequence for red, another character and a bell. */
  const RedText: Frame := [Print('a'), CsiDispatch([31], [], false, 'm'), Print('b'), Execute(0x07)]

  lemma RunFirst(s: State, es: seq<Event>)
    requires es != [] && AllPerformable(es)
    ensures Run(s, es) == Run(Step(s, es[0]), es[1..])
  {
  }

  /** The first two calls: the character waits, then the CSI line flushes it. */
  lemma RedTextFirstHalf()
    ensures Run(State("", [FrameHeader(1)]), RedText)
         == Run(State("", [FrameHeader(1), Text("a"), CsiLine(None, [31], 'm')]), RedText[2..])
  {
    var f := RedText;
    var s0 := State("", [FrameHeader(1)]);
    var s1 := State("a", s0.lines);
    assert Run(s0, f) == Run(s1, f[1..]) by {
      RunFirst(s0, f);
      assert s0.chars + ['a'] == s1.chars;
    }
    RunFirst(s1, f[1..]);
    assert f[1..][1..] == f[2..];
  }

  lemma RedTextSecondHalf()
    ensures Run(State("", [FrameHeader(1), Text("a"), CsiLine(None, [31], 'm')]), RedText[2..])
         == State("", [FrameHeader(1), Text("a"), CsiLine(None, [31], 'm'), Text("b"), Ctrl('G')])
  {
    var f := RedText[2..];
    var s2 := State("", [FrameHeader(1), Text("a"), CsiLine(None, [31], 'm')]);
    var s3 := State("b", s2.lines);
    assert Run(s2, f) == Run(s3, f[1..]) by {
      RunFirst(s2, f);
      assert s2.chars + ['b'] == s3.chars;
    }
    assert f[1..] == [Execute(0x07)];
    RunOne(s3, Execute(0x07));
  }

  lemma RedTextLines()
    ensures Explode([RedText])
         == State("", [FrameHeader(1), Text("a"), CsiLine(None, [31], 'm'), Text("b"), Ctrl('G')])
  {
    ExplodeOne(Initial, 1, RedText);
    assert Initial.lines + Header(1) == [FrameHeader(1)];
    RedTextFirstHalf();
    RedTextSecondHalf();
  }

  lemma SgrRedFormat()
    ensures Format(CsiLine(None, [31], 'm')) == "CSI 31 m"
  {
    assert IntToString(31) == "31" by {
      assert NatToString(31) == NatToString(3) + [DigitChar(1)];
    }
    var d := Decimals([31]);
    assert |d| == 1 && d[0] == "31";
    assert d == ["31"];
  }

  lemma RedTextOutput()
    ensures Output([RedText]) == ["FRAME 1", "TEXT \"a\"", "CSI 31 m", "TEXT \"b\"", "CTRL G"]
  {
    RedTextLines();
    var out := Output([RedText]);
    assert |out| == 5;
    assert out[0] == "FRAME 1" by {
      assert Format(FrameHeader(1)) == "FRAME 1";
    }
    assert out[1] == "TEXT \"a\"" by {
      assert Format(Text("a")) == "TEXT \"a\"";
    }
    assert out[2] == "CSI 31 m" by {
      SgrRedFormat();
    }
    assert out[3] == "TEXT \"b\"" by {
      assert Format(Text("b")) == "TEXT \"b\"";
    }
    assert out[4] == "CTRL G" by {
      assert Format(Ctrl('G')) == "CTRL G";
    }
  }

  /** A CSI sequence without parameters or intermediates prints two spaces before its action. */
  lemma BareCsi()
    ensures Format(DispatchLine(CsiDispatch([], [], false, 'c'))) == "CSI  c"
  {
  }

  /** Only the first intermediate byte shows; the ESC parameters do not. */
  lemma EscWithIntermediate()
    ensures Format(DispatchLine(EscDispatch([5], ['(' as int, '#' as int], true, 'B' as int))) == "ESC ( B"
  {
  }

  /** OSC parameters are quoted and joined with " ; ". */
  lemma OscTitle()
    ensures Format(DispatchLine(OscDispatch(["0", "t"]))) == "OSC \"0\" ; \"t\""
  {
    var q := Quoted(["0", "t"]);
    assert q == ["\"0\"", "\"t\""] by {
      assert q[0] == "\"0\"" && q[1] == "\"t\"";
    }
    assert OscParamStr(["0", "t"]) == "\"0\" ; \"t\"" by {
      assert q[1..] == ["\"t\""];
      assert Join(q, ParamSep) == q[0] + ParamSep + q[1];
    }
  }

  /** Text at the end of the recording is never printed: nothing flushes it. */
  lemma TrailingTextStaysPending()
    ensures Explode([[Print('h'), Print('i')]]) == State("hi", [FrameHeader(1)])
  {
    var f := [Print('h'), Print('i')];
    ExplodeOne(Initial, 1, f);
    assert f[1..] == [Print('i')];
    RunOne(State("h", [FrameHeader(1)]), Print('i'));
  }

  /** Pending text is printed by the next dispatch even when that comes in a later frame. */
  lemma TextCrossesFrames()
    ensures Explode([[Print('a')], [Execute(0x0A)]]).lines
         == [FrameHeader(1), Blank, FrameHeader(2), Text("a"), Ctrl('J')]
  {
    var frames := [[Print('a')], [Execute(0x0A)]];
    var s1 := State("a", [FrameHeader(1)]);
    assert Run(State("", [FrameHeader(1)]), [Print('a')]) == s1 by {
      RunOne(State("", [FrameHeader(1)]), Print('a'));
    }
    assert Explode(frames) == ExplodeFrom(s1, 2, [[Execute(0x0A)]]) by {
      assert frames[0] == [Print('a')] && frames[1..] == [[Execute(0x0A)]];
      assert Initial.lines + Header(1) == [FrameHeader(1)];
    }
    ExplodeOne(s1, 2, [Execute(0x0A)]);
    assert s1.lines + Header(2) == [FrameHeader(1), Blank, FrameHeader(2)];
    RunOne(State("a", [FrameHeader(1), Blank, FrameHeader(2)]), Execute(0x0A));
  }

  /** Empty frames still get their headers, separated by a blank line. */
  lemma EmptyFrames()
    ensures Output([[], []]) == ["FRAME 1", "", "FRAME 2"]
  {
    var frames: seq<Frame> := [[], []];
    var s1 := State("", [FrameHeader(1)]);
    assert Explode(frames) == ExplodeFrom(s1, 2, [[]]) by {
      assert frames[0] == [] && frames[1..] == [[]];
      assert Initial.lines + Header(1) == [FrameHeader(1)];
    }
    ExplodeOne(s1, 2, []);
    var lines := [FrameHeader(1), Blank, FrameHeader(2)];
    assert s1.lines + Header(2) == lines;
    assert Format(lines[0]) == "FRAME 1";
    assert Format(lines[2]) == "FRAME 2";
  }
}
