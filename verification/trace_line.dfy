/**
  The lines `explode` writes to standard output. A `TraceLine` is the value a
  `println!` call formats; `Format` is the text it prints, and `ParseLine`
  reads that text back. For readable lines, those with no `"` inside an OSC
  parameter, this shows that no two distinct lines print the same text; OSC
  parameters holding `"` can collide (`OscParamStrAmbiguous`).
 */
module TraceLines {
  import opened Wrappers
  import opened Decimal
  import opened Joining
  import opened Events

  datatype TraceLine =
    | Text(chars: string)
    | Ctrl(letter: char)
    | EscLine(escInter: Option<byte>, escFinal: byte)
    | CsiLine(csiInter: Option<byte>, csiParams: seq<int>, action: char)
    | OscLine(oscParams: seq<string>)
    | DcsLine(dcsInter: Option<byte>, dcsParams: seq<int>)
    | FrameHeader(index: nat)
    | Blank
  {
    /** A line printed by one of the dispatching callbacks. */
    predicate IsDispatch() {
      Ctrl? || EscLine? || CsiLine? || OscLine? || DcsLine?
    }
  }

  /** OSC lines can only be read back when no parameter holds a double quote. */
  predicate Readable(l: TraceLine) {
    l.OscLine? ==> forall i | 0 <= i < |l.oscParams| :: '"' !in l.oscParams[i]
  }

  /** `b as char` for a `u8`: the code point with the byte's value. */
  function ByteChar(b: byte): (c: char)
    ensures c as int == b
  {
    b as char
  }

  /** `(b + b'@') as char`: the letter `CTRL` shows for a control byte. */
  function CtrlLetter(b: byte): (c: char)
    requires b <= 0xBF
    ensures c as int - 0x40 == b
  {
    (b + 0x40) as char
  }

  const ParamSep: string := " ; "

  function Decimals(ps: seq<int>): (ds: seq<string>)
    ensures |ds| == |ps|
    ensures forall i | 0 <= i < |ps| :: ds[i] == IntToString(ps[i])
  {
    seq(|ps|, i requires 0 <= i < |ps| => IntToString(ps[i]))
  }

  /** `param_str`: each parameter in decimal, in order, joined by " ; ". */
  function ParamStr(ps: seq<int>): (s: string)
    ensures ps == [] <==> s == []
    ensures ps != [] ==> IsDigit(s[0]) || s[0] == '-'
  {
    Join(Decimals(ps), ParamSep)
  }

  function Quoted(ps: seq<string>): (qs: seq<string>)
    ensures |qs| == |ps|
    ensures forall i | 0 <= i < |ps| :: qs[i] == "\"" + ps[i] + "\""
  {
    seq(|ps|, i requires 0 <= i < |ps| => "\"" + ps[i] + "\"")
  }

  /** `osc_param_str`: each parameter in double quotes, in order, joined by " ; ". */
  function OscParamStr(ps: seq<string>): (s: string)
    ensures s == [] <==> ps == []
    ensures ps != [] ==> s[0] == '"'
  {
    Join(Quoted(ps), ParamSep)
  }

  /** The intermediate column of ESC, CSI and DCS lines: the byte and a space, or nothing. */
  function InterPrefix(i: Option<byte>): string
  {
    match i
    case None => ""
    case Some(b) => [ByteChar(b)] + " "
  }

  /** The word that opens each kind of line; a blank line has none. */
  function Keyword(l: TraceLine): string
  {
    match l
    case Text(_) => "TEXT \""
    case Ctrl(_) => "CTRL "
    case EscLine(_, _) => "ESC "
    case CsiLine(_, _, _) => "CSI "
    case OscLine(_) => "OSC "
    case DcsLine(_, _) => "DCS "
    case FrameHeader(_) => "FRAME "
    case Blank => ""
  }

  /** The text `println!` produces for each kind of line. */
  function Format(l: TraceLine): (s: string)
    ensures s == [] <==> l.Blank?
  {
    match l
    case Text(cs) => "TEXT \"" + cs + "\""
    case Ctrl(c) => "CTRL " + [c]
    case EscLine(i, f) => "ESC " + InterPrefix(i) + [ByteChar(f)]
    case CsiLine(i, ps, c) => "CSI " + InterPrefix(i) + ParamStr(ps) + " " + [c]
    case OscLine(ps) => "OSC " + OscParamStr(ps)
    case DcsLine(i, ps) => "DCS " + InterPrefix(i) + ParamStr(ps)
    case FrameHeader(n) => "FRAME " + NatToString(n)
    case Blank => ""
  }

  // ---------------------------------------------------------------------
  // Reading the trace back

  function ParseTokens(ts: seq<string>): (r: Option<seq<int>>)
    ensures r.Some? ==> |r.value| == |ts|
  {
    if ts == [] then Some([])
    else
      match (ParseInt(ts[0]), ParseTokens(ts[1..]))
      case (Some(p), Some(rest)) => Some([p] + rest)
      case _ => None
  }

  function ParseParamStr(s: string): Option<seq<int>>
  {
    if s == [] then Some([]) else ParseTokens(SplitOn(s, ParamSep))
  }

  /** The text of a CSI or DCS line between its keyword and its final character. */
  function ParseInterParams(x: string): Option<(Option<byte>, seq<int>)>
  {
    match ParseParamStr(x)
    case Some(ps) => Some((None, ps))
    case None =>
      if |x| >= 2 && x[1] == ' ' && x[0] as int < 0x100 then
        match ParseParamStr(x[2..])
        case Some(ps) => Some((Some(x[0] as int), ps))
        case None => None
      else None
  }

  const QuoteSep: string := "\" ; \""

  function ParseOscParamStr(s: string): Option<seq<string>>
  {
    if s == [] then Some([])
    else if |s| >= 2 && s[0] == '"' && s[|s| - 1] == '"' then Some(SplitOn(s[1..|s| - 1], QuoteSep))
    else None
  }

  function ParseText(body: string): Option<TraceLine>
  {
    if |body| >= 1 && body[|body| - 1] == '"' then Some(Text(body[..|body| - 1])) else None
  }

  function ParseCtrl(body: string): Option<TraceLine>
  {
    if |body| == 1 then Some(Ctrl(body[0])) else None
  }

  function ParseEsc(body: string): Option<TraceLine>
  {
    if |body| == 1 && body[0] as int < 0x100 then
      Some(EscLine(None, body[0] as int))
    else if |body| == 3 && body[1] == ' ' && body[0] as int < 0x100 && body[2] as int < 0x100 then
      Some(EscLine(Some(body[0] as int), body[2] as int))
    else None
  }

  function ParseCsi(body: string): Option<TraceLine>
  {
    if |body| >= 2 && body[|body| - 2] == ' ' then
      match ParseInterParams(body[..|body| - 2])
      case Some((i, ps)) => Some(CsiLine(i, ps, body[|body| - 1]))
      case None => None
    else None
  }

  function ParseOsc(body: string): Option<TraceLine>
  {
    match ParseOscParamStr(body)
    case Some(ps) => Some(OscLine(ps))
    case None => None
  }

  function ParseDcs(body: string): Option<TraceLine>
  {
    match ParseInterParams(body)
    case Some((i, ps)) => Some(DcsLine(i, ps))
    case None => None
  }

  function ParseFrame(body: string): Option<TraceLine>
  {
    match ParseNat(body)
    case Some(n) => Some(FrameHeader(n))
    case None => None
  }

  /** Reads one line of the trace: its keyword says how to read the rest. */
  function ParseLine(s: string): Option<TraceLine>
  {
    if s == [] then Some(Blank)
    else if "TEXT \"" <= s then ParseText(s[6..])
    else if "CTRL " <= s then ParseCtrl(s[5..])
    else if "ESC " <= s then ParseEsc(s[4..])
    else if "CSI " <= s then ParseCsi(s[4..])
    else if "OSC " <= s then ParseOsc(s[4..])
    else if "DCS " <= s then ParseDcs(s[4..])
    else if "FRAME " <= s then ParseFrame(s[6..])
    else None
  }

  // ---------------------------------------------------------------------
  // Properties of the parameter strings

  lemma {:induction false} ParseDecimals(ps: seq<int>)
    ensures ParseTokens(Decimals(ps)) == Some(ps)
    decreases |ps|
  {
    if ps != [] {
      var ts := Decimals(ps);
      assert ParseInt(ts[0]) == Some(ps[0]) by {
        assert ts[0] == IntToString(ps[0]);
        IntRoundTrip(ps[0]);
      }
      assert ParseTokens(ts[1..]) == Some(ps[1..]) by {
        assert ts[1..] == Decimals(ps[1..]);
        ParseDecimals(ps[1..]);
      }
      assert [ps[0]] + ps[1..] == ps;
    }
  }

  /** `param_str` keeps every parameter and their order: it can be read back exactly. */
  lemma ParamStrRoundTrip(ps: seq<int>)
    ensures ParseParamStr(ParamStr(ps)) == Some(ps)
  {
    if ps != [] {
      var ds := Decimals(ps);
      forall i | 0 <= i < |ds|
        ensures ParamSep[0] !in ds[i]
      {
        assert ds[i] == IntToString(ps[i]);
      }
      SplitJoin(ds, ParamSep);
      ParseDecimals(ps);
    }
  }

  /** `n` parameters are separated by exactly `n - 1` semicolons. */
  lemma ParamStrSeparators(ps: seq<int>)
    requires ps != []
    ensures Count(';', ParamStr(ps)) == |ps| - 1
  {
    var ds := Decimals(ps);
    forall i | 0 <= i < |ds|
      ensures ';' !in ds[i]
    {
      assert ds[i] == IntToString(ps[i]);
    }
    JoinCount(';', ds, ParamSep);
  }

  /** A string that starts with one character and a space is never a parameter string. */
  lemma NotParamStr(i: char, ps: seq<int>)
    ensures ParseParamStr([i] + " " + ParamStr(ps)) == None
  {
    var p := ParamStr(ps);
    var x := [i] + " " + p;
    assert x[1] == ' ';
    assert !(ParamSep <= x);
    SplitFirstToken(x, ParamSep);
    assert x[1..] == " " + p;
    if p != [] {
      assert p[0] != ';';
    }
    assert !(ParamSep <= x[1..]);
    SplitFirstToken(x[1..], ParamSep);
    var t := SplitOn(x, ParamSep)[0];
    assert t[1] == ' ';
    assert ParseInt(t) == None by {
      if t[0] == '-' {
        assert t[1..][0] == ' ';
      }
    }
  }

  /** The intermediate column and the parameters of CSI and DCS lines can be read back. */
  lemma InterParamsRoundTrip(i: Option<byte>, ps: seq<int>)
    ensures ParseInterParams(InterPrefix(i) + ParamStr(ps)) == Some((i, ps))
  {
    ParamStrRoundTrip(ps);
    match i
    case None =>
      assert InterPrefix(i) + ParamStr(ps) == ParamStr(ps);
    case Some(b) =>
      var x := InterPrefix(i) + ParamStr(ps);
      NotParamStr(ByteChar(b), ps);
      assert x[2..] == ParamStr(ps);
  }

  lemma {:induction false} QuotedJoin(ps: seq<string>)
    requires ps != []
    ensures OscParamStr(ps) == "\"" + Join(ps, QuoteSep) + "\""
    decreases |ps|
  {
    if |ps| > 1 {
      var q := "\"";
      var rest := Join(ps[1..], QuoteSep);
      assert OscParamStr(ps) == (q + ps[0] + q) + ParamSep + OscParamStr(ps[1..]) by {
        assert Quoted(ps)[1..] == Quoted(ps[1..]);
      }
      QuotedJoin(ps[1..]);
      assert Join(ps, QuoteSep) == ps[0] + QuoteSep + rest;
      assert (q + ps[0] + q) + ParamSep + (q + rest + q) == q + (ps[0] + QuoteSep + rest) + q;
    }
  }

  /** `osc_param_str` keeps the parameters and their order, as long as none holds a quote. */
  lemma OscParamStrRoundTrip(ps: seq<string>)
    requires forall i | 0 <= i < |ps| :: '"' !in ps[i]
    ensures ParseOscParamStr(OscParamStr(ps)) == Some(ps)
  {
    if ps != [] {
      QuotedJoin(ps);
      var inner := Join(ps, QuoteSep);
      var s := OscParamStr(ps);
      assert s[1..|s| - 1] == inner;
      SplitJoin(ps, QuoteSep);
    }
  }

  /** A quote inside an OSC parameter can make two different calls print the same line. */
  lemma OscParamStrAmbiguous()
    ensures OscParamStr(["a\" ; \"b"]) == OscParamStr(["a", "b"])
  {
    var one := Quoted(["a\" ; \"b"]);
    var two := Quoted(["a", "b"]);
    assert |one| == 1 && one[0] == "\"a\" ; \"b\"";
    assert |two| == 2 && two[0] == "\"a\"" && two[1] == "\"b\"";
    assert two[1..] == ["\"b\""];
    assert Join(two, ParamSep) == "\"a\"" + ParamSep + "\"b\"";
  }

  // ---------------------------------------------------------------------
  // Reading a formatted line gives the line back

  /** A line starting with a keyword is read by that keyword's reader from the rest. */
  lemma KeywordPrefix(kw: string, body: string)
    ensures kw <= kw + body
    ensures (kw + body)[|kw|..] == body
    ensures forall j | 0 <= j < |kw| :: (kw + body)[j] == kw[j]
  {
  }

  /** Two strings that differ at a position within the keyword do not start with it. */
  lemma NotKeyword(kw: string, s: string, j: nat)
    requires j < |kw| && j < |s| && kw[j] != s[j]
    ensures !(kw <= s)
  {
  }

  lemma TextRoundTrip(cs: string)
    ensures ParseLine(Format(Text(cs))) == Some(Text(cs))
  {
    var body := cs + "\"";
    assert ParseLine(Format(Text(cs))) == ParseText(body) by {
      KeywordPrefix("TEXT \"", body);
      assert Format(Text(cs)) == "TEXT \"" + body;
    }
    assert body[..|cs|] == cs;
  }

  // `ParseLine` hands what follows each keyword to that keyword's reader.

  lemma ParseLineCtrl(body: string)
    ensures ParseLine("CTRL " + body) == ParseCtrl(body)
  {
    var s := "CTRL " + body;
    KeywordPrefix("CTRL ", body);
    NotKeyword("TEXT \"", s, 0);
  }

  lemma ParseLineEsc(body: string)
    ensures ParseLine("ESC " + body) == ParseEsc(body)
  {
    var s := "ESC " + body;
    KeywordPrefix("ESC ", body);
    NotKeyword("TEXT \"", s, 0);
    NotKeyword("CTRL ", s, 0);
  }

  lemma ParseLineCsi(body: string)
    ensures ParseLine("CSI " + body) == ParseCsi(body)
  {
    var s := "CSI " + body;
    KeywordPrefix("CSI ", body);
    NotKeyword("TEXT \"", s, 0);
    NotKeyword("CTRL ", s, 1);
    NotKeyword("ESC ", s, 0);
  }

  lemma ParseLineOsc(body: string)
    ensures ParseLine("OSC " + body) == ParseOsc(body)
  {
    var s := "OSC " + body;
    KeywordPrefix("OSC ", body);
    NotKeyword("TEXT \"", s, 0);
    NotKeyword("CTRL ", s, 0);
    NotKeyword("ESC ", s, 0);
    NotKeyword("CSI ", s, 0);
  }

  lemma ParseLineDcs(body: string)
    ensures ParseLine("DCS " + body) == ParseDcs(body)
  {
    var s := "DCS " + body;
    KeywordPrefix("DCS ", body);
    NotKeyword("TEXT \"", s, 0);
    NotKeyword("CTRL ", s, 0);
    NotKeyword("ESC ", s, 0);
    NotKeyword("CSI ", s, 0);
    NotKeyword("OSC ", s, 0);
  }

  lemma ParseLineFrame(body: string)
    ensures ParseLine("FRAME " + body) == ParseFrame(body)
  {
    var s := "FRAME " + body;
    KeywordPrefix("FRAME ", body);
    NotKeyword("TEXT \"", s, 0);
    NotKeyword("CTRL ", s, 0);
    NotKeyword("ESC ", s, 0);
    NotKeyword("CSI ", s, 0);
    NotKeyword("OSC ", s, 0);
    NotKeyword("DCS ", s, 0);
  }

  lemma CtrlRoundTrip(c: char)
    ensures ParseLine(Format(Ctrl(c))) == Some(Ctrl(c))
  {
    ParseLineCtrl([c]);
  }

  lemma EscRoundTrip(i: Option<byte>, f: byte)
    ensures ParseLine(Format(EscLine(i, f))) == Some(EscLine(i, f))
  {
    var body := InterPrefix(i) + [ByteChar(f)];
    assert Format(EscLine(i, f)) == "ESC " + body;
    ParseLineEsc(body);
  }

  /** The CSI body is read back from its end: the action, a space, then the rest. */
  lemma ParseCsiBody(x: string, c: char, i: Option<byte>, ps: seq<int>)
    requires ParseInterParams(x) == Some((i, ps))
    ensures ParseCsi(x + " " + [c]) == Some(CsiLine(i, ps, c))
  {
    var body := x + " " + [c];
    assert body[..|body| - 2] == x && body[|body| - 2] == ' ' && body[|body| - 1] == c;
  }

  lemma FormatCsi(i: Option<byte>, ps: seq<int>, c: char)
    ensures Format(CsiLine(i, ps, c)) == "CSI " + ((InterPrefix(i) + ParamStr(ps)) + " " + [c])
  {
  }

  lemma CsiRoundTrip(i: Option<byte>, ps: seq<int>, c: char)
    ensures ParseLine(Format(CsiLine(i, ps, c))) == Some(CsiLine(i, ps, c))
  {
    var x := InterPrefix(i) + ParamStr(ps);
    FormatCsi(i, ps, c);
    ParseLineCsi(x + " " + [c]);
    InterParamsRoundTrip(i, ps);
    ParseCsiBody(x, c, i, ps);
  }

  lemma OscRoundTrip(ps: seq<string>)
    requires forall i | 0 <= i < |ps| :: '"' !in ps[i]
    ensures ParseLine(Format(OscLine(ps))) == Some(OscLine(ps))
  {
    ParseLineOsc(OscParamStr(ps));
    OscParamStrRoundTrip(ps);
  }

  lemma FormatDcs(i: Option<byte>, ps: seq<int>)
    ensures Format(DcsLine(i, ps)) == "DCS " + (InterPrefix(i) + ParamStr(ps))
  {
  }

  lemma ParseDcsBody(i: Option<byte>, ps: seq<int>)
    ensures ParseDcs(InterPrefix(i) + ParamStr(ps)) == Some(DcsLine(i, ps))
  {
    InterParamsRoundTrip(i, ps);
  }

  lemma DcsRoundTrip(i: Option<byte>, ps: seq<int>)
    ensures ParseLine(Format(DcsLine(i, ps))) == Some(DcsLine(i, ps))
  {
    FormatDcs(i, ps);
    ParseLineDcs(InterPrefix(i) + ParamStr(ps));
    ParseDcsBody(i, ps);
  }

  lemma FrameRoundTrip(n: nat)
    ensures ParseLine(Format(FrameHeader(n))) == Some(FrameHeader(n))
  {
    ParseLineFrame(NatToString(n));
    NatRoundTrip(n);
  }

  /** Every readable line can be recovered from the text printed for it. */
  lemma FormatRoundTrip(l: TraceLine)
    requires Readable(l)
    ensures ParseLine(Format(l)) == Some(l)
  {
    match l
    case Text(cs) => TextRoundTrip(cs);
    case Ctrl(c) => CtrlRoundTrip(c);
    case EscLine(i, f) => EscRoundTrip(i, f);
    case CsiLine(i, ps, c) => CsiRoundTrip(i, ps, c);
    case OscLine(ps) => OscRoundTrip(ps);
    case DcsLine(i, ps) => DcsRoundTrip(i, ps);
    case FrameHeader(n) => FrameRoundTrip(n);
    case Blank =>
  }

  /** Every line opens with the word of its kind, and that word tells the kinds apart. */
  lemma FormatKeyword(l: TraceLine, m: TraceLine)
    ensures Keyword(l) <= Format(l)
    ensures Keyword(l) == Keyword(m) <==>
              (l.Blank? == m.Blank? && l.Text? == m.Text? && l.Ctrl? == m.Ctrl?
               && l.EscLine? == m.EscLine? && l.CsiLine? == m.CsiLine?
               && l.OscLine? == m.OscLine? && l.DcsLine? == m.DcsLine?)
  {
  }

  /** Only the empty run of text prints as `TEXT ""`. */
  lemma FormatEmptyText(l: TraceLine)
    ensures Format(l) == "TEXT \"\"" <==> l == Text([])
  {
    var s := Format(l);
    match l
    case Text(cs) =>
      assert |s| == 7 + |cs|;
    case Blank =>
    case FrameHeader(_) =>
      assert s[0] == 'F';
    case OscLine(_) =>
      assert s[0] == 'O';
    case _ =>
      assert s[0] != 'T';
  }

  /** Two readable lines print the same text exactly when they are the same line. */
  lemma FormatInjective(l: TraceLine, m: TraceLine)
    requires Readable(l) && Readable(m)
    ensures Format(l) == Format(m) <==> l == m
  {
    FormatRoundTrip(l);
    FormatRoundTrip(m);
  }
}
