/** What each driver method asks of the installed libcec binding
    (libcec_driver.py, SwigDriver and PythonCecDriver). */
module Bindings {
  import opened Prelude

  const OPCODE_STANDBY: byte := 0x36
  const OPCODE_USER_CONTROL_PRESSED: byte := 0x44
  const OPCODE_USER_CONTROL_RELEASE: byte := 0x45

  datatype Binding = Swig | PythonCec

  datatype Method =
    | Scan
    | Transmit(destination: int, opcode: int, params: seq<byte>)
    | SendKey(destination: int, key: byte)
    | Power(destination: int, turnOn: bool)
    | SetActiveSource

  /** One request a binding makes of the bus. */
  datatype BusOp =
    | Poll
    | Frame(destination: int, opcode: int, params: seq<byte>)
    | KeyDown(destination: int, key: byte)
    | KeyUp(destination: int)
    | WakeUp(destination: int)
    | StandBy(destination: int)
    | ClaimSource

  function PressOp(b: Binding, destination: int, key: byte): BusOp {
    if b.Swig? then KeyDown(destination, key)
    else Frame(destination, OPCODE_USER_CONTROL_PRESSED, [key])
  }

  function ReleaseOp(b: Binding, destination: int): BusOp {
    if b.Swig? then KeyUp(destination)
    else Frame(destination, OPCODE_USER_CONTROL_RELEASE, [])
  }

  function StandByOp(b: Binding, destination: int): BusOp {
    if b.Swig? then StandBy(destination) else Frame(destination, OPCODE_STANDBY, [])
  }

  /** The requests of one driver method, in order.  The method answers true
      when every one of them was accepted. */
  function Program(b: Binding, m: Method): (ops: seq<BusOp>)
    ensures ops != []
  {
    match m
    case Scan => [Poll]
    case Transmit(d, opcode, params) => [Frame(d, opcode, params)]
    case SendKey(d, key) => [PressOp(b, d, key), ReleaseOp(b, d)]
    case Power(d, on) => if on then [WakeUp(d)] else [StandByOp(b, d)]
    case SetActiveSource => [ClaimSource]
  }

  /** What a request asks for, whether in a call of its own or as a plain frame. */
  datatype Meaning =
    | KeyPressed(destination: int, key: byte)
    | KeyReleased(destination: int)
    | WokenUp(destination: int)
    | PutInStandby(destination: int)
    | SourceClaimed
    | BusPolled
    | Message(destination: int, opcode: int, params: seq<byte>)

  function MeaningOf(op: BusOp): Meaning {
    match op
    case Poll => BusPolled
    case KeyDown(d, key) => KeyPressed(d, key)
    case KeyUp(d) => KeyReleased(d)
    case WakeUp(d) => WokenUp(d)
    case StandBy(d) => PutInStandby(d)
    case ClaimSource => SourceClaimed
    case Frame(d, opcode, params) =>
      if opcode == 0x44 && |params| == 1 then KeyPressed(d, params[0])
      else if opcode == 0x45 && params == [] then KeyReleased(d)
      else if opcode == 0x36 && params == [] then PutInStandby(d)
      else Message(d, opcode, params)
  }

  function MeaningsOf(ops: seq<BusOp>): (meanings: seq<Meaning>)
    ensures |meanings| == |ops| && forall i :: 0 <= i < |ops| ==> meanings[i] == MeaningOf(ops[i])
  {
    seq(|ops|, i requires 0 <= i < |ops| => MeaningOf(ops[i]))
  }

  /** What each driver method asks of the bus, with either binding. */
  lemma ProgramMeans(b: Binding, m: Method)
    ensures MeaningsOf(Program(b, m)) ==
              match m
              case Scan => [BusPolled]
              case SendKey(d, key) => [KeyPressed(d, key), KeyReleased(d)]
              case Power(d, turnOn) => [if turnOn then WokenUp(d) else PutInStandby(d)]
              case SetActiveSource => [SourceClaimed]
              case Transmit(d, opcode, params) => [MeaningOf(Frame(d, opcode, params))]
  {
  }

  /** With either binding here and either there, a key asks for what its two
      transmits ask for; with python-cec it is these two frames, and standby is
      a frame too. */
  lemma KeyIsTwoTransmits(here: Binding, there: Binding, d: int, key: byte)
    ensures var press := Program(there, Transmit(d, OPCODE_USER_CONTROL_PRESSED, [key]));
            var release := Program(there, Transmit(d, OPCODE_USER_CONTROL_RELEASE, []));
            && MeaningsOf(Program(here, SendKey(d, key))) == MeaningsOf(press + release)
                 == [KeyPressed(d, key), KeyReleased(d)]
            && (here.PythonCec? ==>
                  Program(here, SendKey(d, key)) == press + release == [Frame(d, 0x44, [key]), Frame(d, 0x45, [])])
    ensures Program(PythonCec, Power(d, false)) == Program(there, Transmit(d, OPCODE_STANDBY, []))
    ensures Program(PythonCec, Power(d, false)) == [Frame(d, 0x36, [])]
  {
  }

  predicate SameStandby(m: Method, m': Method) {
    m.Power? && !m.turnOn && m' == Transmit(m.destination, OPCODE_STANDBY, [])
  }

  /** This is the only thing that cannot be told from the messages: which standby
      it was, with python-cec. */
  lemma MessagesTellMethod(b: Binding, m: Method, m': Method)
    ensures Program(b, m) == Program(b, m') <==>
              m == m' || (b.PythonCec? && SameStandby(m, m')) || (b.PythonCec? && SameStandby(m', m))
  {
    assert |Program(b, m)| > 0 && |Program(b, m')| > 0;
    if Program(b, m) == Program(b, m') {
      assert Program(b, m)[0] == Program(b, m')[0];
    }
  }
}
