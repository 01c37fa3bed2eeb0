/**
  The callbacks the `vte` parser makes into the printer of `explode`, one
  value per call, and the frames of a recording as lists of such calls.
 */
module Events {
  import opened Wrappers

  type byte = x: int | 0 <= x < 0x100

  /** Rust's `i64`, the type of the numeric parameters `vte` collects. */
  type i64 = x: int | -0x8000_0000_0000_0000 <= x < 0x8000_0000_0000_0000

  /**
    One call of `vte::Perform`. The ESC parameters and the `ignore` flags are
    handed over by the parser but never looked at by the printer.
   */
  datatype Event =
    | Print(c: char)
    | Execute(control: byte)
    | EscDispatch(params: seq<i64>, intermediates: seq<byte>, ignore: bool, final: byte)
    | CsiDispatch(params: seq<i64>, intermediates: seq<byte>, ignore: bool, action: char)
    | OscDispatch(oscParams: seq<string>)
    | Hook(params: seq<i64>, intermediates: seq<byte>, ignore: bool)
    | Put(payload: byte)
    | Unhook
  {
    /** The callbacks that flush pending text and print a line of their own. */
    predicate IsDispatch() {
      Execute? || EscDispatch? || CsiDispatch? || OscDispatch? || Hook?
    }
  }

  /**
    `execute` adds 0x40 to its byte as a `u8`; the sum only fits for bytes up
    to 0xBF, which covers the C0 and C1 controls the parser hands over.
   */
  predicate Performable(e: Event) {
    e.Execute? ==> e.control <= 0xBF
  }

  predicate AllPerformable(es: seq<Event>) {
    forall i | 0 <= i < |es| :: Performable(es[i])
  }

  /** The parser's callbacks for the bytes of one recording frame. */
  type Frame = seq<Event>

  predicate FramesPerformable(frames: seq<Frame>) {
    forall k | 0 <= k < |frames| :: AllPerformable(frames[k])
  }

  /** `intermediates.get(0)`: the only intermediate byte the printer shows. */
  function FirstIntermediate(intermediates: seq<byte>): (r: Option<byte>)
    ensures r.None? <==> intermediates == []
    ensures r.Some? ==> r.value == intermediates[0]
  {
    if |intermediates| == 0 then None else Some(intermediates[0])
  }

  /** The characters of the `Print` calls among `es`, in order. */
  function Printed(es: seq<Event>): string
  {
    if es == [] then []
    else (if es[0].Print? then [es[0].c] else []) + Printed(es[1..])
  }

  /** All calls of all frames, in order. */
  function Flatten(frames: seq<Frame>): seq<Event>
  {
    if frames == [] then [] else frames[0] + Flatten(frames[1..])
  }
}
