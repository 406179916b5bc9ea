/**
  `handle_input`: the Enter and Space key edges flip the two render-mode flags
  and trigger a full-buffer random fill. Key presses are boolean inputs
  (`is_key_pressed` without repeat reports one edge per physical press).
*/
module InputHandling {
  import opened Common

  /** The two fills: `fill_buffer_rand_bw` (random black or white) and `fill_buffer_rand` (random colour). */
  datatype Fill = BlackWhite | RandomColour

  /** The fill a colour state selects: `color_state` true gives black/white. */
  function FillFor(colorState: bool): (f: Fill)
    ensures f == BlackWhite <==> colorState
  {
    if colorState then BlackWhite else RandomColour
  }

  /** The two fields of `RenderState` that `handle_input` reads and flips. */
  class RenderState {
    var colorState: bool
    var debugRender: bool

    constructor (colorState: bool, debugRender: bool)
      ensures this.colorState == colorState && this.debugRender == debugRender
    {
      this.colorState := colorState;
      this.debugRender := debugRender;
    }
  }

  /** The flags after one call and the fills it performed, in order. */
  datatype Response = Response(colorState: bool, debugRender: bool, fills: seq<Fill>)

  /**
    One call of `handle_input`, Enter handled before Space. Enter negates the
    colour flag exactly once and fills only when debug rendering is off (the
    flag as it was before this call, since Space comes later); Space negates the
    debug flag exactly once and always fills. Every fill is chosen by the new
    colour flag, and with neither key pressed nothing changes.
  */
  function Respond(colorState: bool, debugRender: bool, enter: bool, space: bool): (r: Response)
    ensures r.colorState == (colorState != enter)
    ensures r.debugRender == (debugRender != space)
    ensures |r.fills| == (if enter && !debugRender then 1 else 0) + (if space then 1 else 0)
    ensures forall i :: 0 <= i < |r.fills| ==> r.fills[i] == FillFor(r.colorState)
    ensures !enter && !space ==> r == Response(colorState, debugRender, [])
  {
    var color := if enter then !colorState else colorState;
    var enterFills := if enter && !debugRender then [FillFor(color)] else [];
    var debug := if space then !debugRender else debugRender;
    var spaceFills := if space then [FillFor(color)] else [];
    Response(color, debug, enterFills + spaceFills)
  }

  /** Pressing the same keys in two consecutive calls restores both flags. */
  lemma RespondTwiceRestores(colorState: bool, debugRender: bool, enter: bool, space: bool)
    ensures var once := Respond(colorState, debugRender, enter, space);
      var twice := Respond(once.colorState, once.debugRender, enter, space);
      twice.colorState == colorState && twice.debugRender == debugRender
  {
  }

  /**
    Stands for either random fill: every pixel of the buffer is overwritten by
    the corresponding value of `noise`, the random draw, so the length is kept.
  */
  method Overwrite(buffer: array<U32>, noise: seq<U32>)
    requires |noise| == buffer.Length
    modifies buffer
    ensures buffer[..] == noise
  {
    forall i | 0 <= i < buffer.Length {
      buffer[i] := noise[i];
    }
  }

  /**
    `handle_input`: flips the flags of `state` in place and fills `buffer`;
    it returns the fills it performed, which `Respond` determines.
  */
  method HandleInput(state: RenderState, buffer: array<U32>, enter: bool, space: bool, noise: seq<U32>)
    returns (fills: seq<Fill>)
    requires |noise| == buffer.Length
    modifies state, buffer
    ensures Response(state.colorState, state.debugRender, fills)
         == Respond(old(state.colorState), old(state.debugRender), enter, space)
    ensures buffer[..] == if fills == [] then old(buffer[..]) else noise
  {
    fills := [];
    if enter {
      state.colorState := !state.colorState;
      if !state.debugRender {
        if state.colorState {
          Overwrite(buffer, noise);
          fills := fills + [BlackWhite];
        } else {
          Overwrite(buffer, noise);
          fills := fills + [RandomColour];
        }
      }
    }
    if space {
      state.debugRender := !state.debugRender;
      if state.colorState {
        Overwrite(buffer, noise);
        fills := fills + [BlackWhite];
      } else {
        Overwrite(buffer, noise);
        fills := fills + [RandomColour];
      }
    }
  }
}
