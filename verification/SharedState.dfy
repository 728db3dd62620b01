/** The state shared by the window and the background worker (win/src/state.rs). */
module SharedState {
  import opened Bytes

  datatype ConnState = Disconnected | Connecting | Connected | Error

  const LOG_CAP: nat := 250

  class Shared {
    var state: ConnState
    var error: string
    var lines: seq<string>
    var rx: nat
    var tx: nat
    var stop: bool

    ghost predicate Valid()
      reads this
    {
      |lines| <= LOG_CAP
    }

    constructor ()
      ensures Valid() && state == Disconnected && error == "" && lines == []
      ensures rx == 0 && tx == 0 && !stop
    {
      state, error, lines, rx, tx, stop := Disconnected, "", [], 0, 0, false;
    }

    method SetState(s: ConnState)
      modifies this`state
      ensures state == s
    {
      state := s;
    }

    /** Keep the most recent lines; the oldest one makes way. */
    method Log(line: string)
      requires Valid()
      modifies this`lines
      ensures Valid() && lines == Last(old(lines) + [line], LOG_CAP)
    {
      if |lines| == LOG_CAP {
        lines := lines[1..];
      }
      lines := lines + [line];
    }

    method SetError(message: string)
      requires Valid()
      modifies this`error, this`state, this`lines
      ensures Valid() && error == message && state == Error
      ensures lines == Last(old(lines) + ["error: " + message], LOG_CAP)
    {
      error := message;
      SetState(Error);
      Log("error: " + message);
    }

    method ResetCounters()
      modifies this`rx, this`tx
      ensures rx == 0 && tx == 0
    {
      rx, tx := 0, 0;
    }

    method RequestStop()
      modifies this`stop
      ensures stop
    {
      stop := true;
    }

    method ClearStop()
      modifies this`stop
      ensures !stop
    {
      stop := false;
    }
  }
}
