/**
  The register protocol both panel drivers speak over their two memory-mapped
  16-bit ports: a control port that selects a controller register and a data
  port that carries register values and pixel words.

  Everything the drivers do to the hardware is recorded as a trace of `Op`s.
  Initialisation and standby sequences are tables of `Action`s; `Emit` turns a
  table into the bus operations `reg_set`, `send_cmd` and `mdelay` produce, and
  `Parse` recovers the table from the bus, which shows the encoding loses
  nothing.
*/
module Bus {

  datatype Option<+T> = None | Some(value: T)

  /** One bus operation, in the order it reaches the hardware. */
  datatype Op =
    | Ctrl(reg: nat)                // write to the control port
    | Data(value: nat)              // write of one word to the data port
    | Delay(ms: nat)                // busy-wait (mdelay)
    | Burst(offset: nat, len: nat)  // len framebuffer words from word offset `offset` to the data port
    | Read                          // read of one word from the data port

  /** One entry of an initialisation or standby table. */
  datatype Action =
    | WriteReg(reg: nat, value: nat)  // reg_set
    | SendCmd(reg: nat)               // send_cmd
    | Sleep(ms: nat)                  // mdelay

  /** The register argument is an unsigned char, masked again with 0xff. */
  function CtrlByte(reg: nat): nat { reg % 0x100 }

  /** Narrowing to a C unsigned short. */
  function Word(n: int): nat { n % 0x1_0000 }

  /** The bus operations of one table entry: reg_set writes the control port first, then the data port. */
  function Encode(a: Action): seq<Op>
  {
    match a
    case WriteReg(reg, value) => [Ctrl(CtrlByte(reg)), Data(Word(value))]
    case SendCmd(reg) => [Ctrl(CtrlByte(reg))]
    case Sleep(ms) => [Delay(ms)]
  }

  function Emit(t: seq<Action>): seq<Op>
  {
    if t == [] then [] else Encode(t[0]) + Emit(t[1..])
  }

  /** An entry whose register fits the control byte and whose value fits a word. */
  predicate WellFormed(a: Action)
  {
    match a
    case WriteReg(reg, value) => reg < 0x100 && value < 0x1_0000
    case SendCmd(reg) => reg < 0x100
    case Sleep(_) => true
  }

  predicate AllWellFormed(t: seq<Action>)
  {
    forall k :: 0 <= k < |t| ==> WellFormed(t[k])
  }

  function Cons(a: Action, rest: Option<seq<Action>>): Option<seq<Action>>
  {
    match rest
    case None => None
    case Some(t) => Some([a] + t)
  }

  /**
    Reads a bus trace back as a table: a control write followed by a data
    write is a register write, a control write followed by anything else is a
    command, a delay is a sleep. Bursts and reads are not table entries.
  */
  function Parse(ops: seq<Op>): Option<seq<Action>>
    decreases |ops|
  {
    if ops == [] then Some([])
    else match ops[0]
      case Ctrl(reg) =>
        if reg >= 0x100 then None
        else if |ops| >= 2 && ops[1].Data? then
          if ops[1].value >= 0x1_0000 then None
          else Cons(WriteReg(reg, ops[1].value), Parse(ops[2..]))
        else Cons(SendCmd(reg), Parse(ops[1..]))
      case Delay(ms) => Cons(Sleep(ms), Parse(ops[1..]))
      case _ => None
  }

  lemma {:induction false} EmitAppend(a: seq<Action>, b: seq<Action>)
    ensures Emit(a + b) == Emit(a) + Emit(b)
  {
    if a == [] {
      assert a + b == b;
    } else {
      assert (a + b)[1..] == a[1..] + b;
      EmitAppend(a[1..], b);
    }
  }

  /** A table's bus trace never starts with a bare data write. */
  lemma EmitStartsWithoutData(t: seq<Action>)
    ensures Emit(t) == [] || !Emit(t)[0].Data?
  {
  }

  /** Decoding the bus trace of a well-formed table gives the table back. */
  lemma {:induction false} ParseEmit(t: seq<Action>)
    requires AllWellFormed(t)
    ensures Parse(Emit(t)) == Some(t)
  {
    if t != [] {
      assert AllWellFormed(t[1..]) by {
        forall k | 0 <= k < |t[1..]| ensures WellFormed(t[1..][k]) {
          assert t[1..][k] == t[k + 1];
        }
      }
      ParseEmit(t[1..]);
      assert WellFormed(t[0]);
      var rest := Emit(t[1..]);
      EmitStartsWithoutData(t[1..]);
      assert [t[0]] + t[1..] == t;
      match t[0]
      case WriteReg(reg, value) =>
        var ops := [Ctrl(reg), Data(value)] + rest;
        assert Emit(t) == ops;
        assert ops[2..] == rest;
      case SendCmd(reg) =>
        var ops := [Ctrl(reg)] + rest;
        assert Emit(t) == ops;
        assert ops[1..] == rest;
      case Sleep(ms) =>
        var ops := [Delay(ms)] + rest;
        assert Emit(t) == ops;
        assert ops[1..] == rest;
    }
  }

  /** Whatever `Parse` accepts is exactly the bus trace of the table it returns. */
  lemma {:induction false} EmitParse(ops: seq<Op>)
    requires Parse(ops).Some?
    ensures AllWellFormed(Parse(ops).value)
    ensures Emit(Parse(ops).value) == ops
    decreases |ops|
  {
    if ops != [] {
      var t := Parse(ops).value;
      match ops[0]
      case Ctrl(reg) =>
        if |ops| >= 2 && ops[1].Data? {
          EmitParse(ops[2..]);
          assert t == [WriteReg(reg, ops[1].value)] + Parse(ops[2..]).value;
          assert t[1..] == Parse(ops[2..]).value;
          assert ops == [ops[0], ops[1]] + ops[2..];
        } else {
          EmitParse(ops[1..]);
          assert t[1..] == Parse(ops[1..]).value;
          assert ops == [ops[0]] + ops[1..];
        }
      case Delay(ms) =>
        EmitParse(ops[1..]);
        assert t[1..] == Parse(ops[1..]).value;
        assert ops == [ops[0]] + ops[1..];
    }
  }
}
