/**
  An abstract panel controller, as the drivers rely on it: the entry-mode
  register 0x03, the row and column address registers 0x20 and 0x21, and the
  GRAM access command 0x22. Writing the row or the column moves the GRAM
  address counter to row * xres + column; every word written while 0x22 is
  selected lands at the counter, which then advances by one. This is the
  landscape, full-screen-window configuration the drivers program (entry mode
  0x1038).

  The `stray` flag records whether some pixel burst has ever been written
  anywhere other than the GRAM address equal to its own framebuffer offset.
  The write-window cache is correct exactly when it never sets this flag.
*/
module Controller {
  import opened Bus

  const EntryModeReg: nat := 0x03
  const RowReg: nat := 0x20
  const ColumnReg: nat := 0x21
  const GramReg: nat := 0x22
  /** Entry mode programmed before every GRAM window: horizontal increment, landscape. */
  const Landscape: nat := 0x1038

  datatype Hw = Hw(index: nat, entry: nat, row: nat, column: nat, ac: nat, stray: bool)

  function Next(xres: nat, s: Hw, op: Op): Hw
  {
    match op
    case Ctrl(reg) => s.(index := reg)
    case Data(v) =>
      if s.index == EntryModeReg then s.(entry := v)
      else if s.index == RowReg then s.(row := v, ac := v * xres + s.column)
      else if s.index == ColumnReg then s.(column := v, ac := s.row * xres + v)
      else if s.index == GramReg then s.(ac := s.ac + 1)
      else s
    case Burst(offset, len) =>
      s.(ac := if s.index == GramReg then s.ac + len else s.ac,
         stray := s.stray || !(s.index == GramReg && s.entry == Landscape && s.ac == offset))
    case Delay(_) => s
    case Read => s
  }

  function Run(xres: nat, s: Hw, ops: seq<Op>): Hw
    decreases |ops|
  {
    if ops == [] then s else Run(xres, Next(xres, s, ops[0]), ops[1..])
  }

  /**
    The controller is ready to take the next word at GRAM address `cursor`
    and no burst so far has gone astray.
  */
  predicate InSync(s: Hw, cursor: nat)
  {
    s.index == GramReg && s.entry == Landscape && s.ac == cursor && !s.stray
  }

  lemma {:induction false} RunAppend(xres: nat, s: Hw, a: seq<Op>, b: seq<Op>)
    ensures Run(xres, s, a + b) == Run(xres, Run(xres, s, a), b)
    decreases |a|
  {
    if a == [] {
      assert a + b == b;
    } else {
      assert (a + b)[1..] == a[1..] + b;
      RunAppend(xres, Next(xres, s, a[0]), a[1..], b);
    }
  }

  /** Register writes, commands and delays never misplace a burst. */
  lemma {:induction false} RunWithoutBursts(xres: nat, s: Hw, ops: seq<Op>)
    requires forall k :: 0 <= k < |ops| ==> !ops[k].Burst?
    ensures Run(xres, s, ops).stray == s.stray
    decreases |ops|
  {
    if ops != [] {
      assert !ops[0].Burst?;
      RunWithoutBursts(xres, Next(xres, s, ops[0]), ops[1..]);
    }
  }

  /** No table entry produces a burst. */
  lemma {:induction false} EmitHasNoBursts(t: seq<Action>)
    ensures forall k :: 0 <= k < |Emit(t)| ==> !Emit(t)[k].Burst?
  {
    if t != [] {
      EmitHasNoBursts(t[1..]);
    }
  }

  /** Replaying a table leaves the stray flag as it was. */
  lemma TableKeepsStray(xres: nat, s: Hw, t: seq<Action>)
    ensures Run(xres, s, Emit(t)).stray == s.stray
  {
    EmitHasNoBursts(t);
    RunWithoutBursts(xres, s, Emit(t));
  }

  /** One register write, replayed. */
  lemma RunWriteReg(xres: nat, s: Hw, reg: nat, value: nat)
    requires reg < 0x100 && value < 0x1_0000
    ensures Run(xres, s, Emit([WriteReg(reg, value)])) == Next(xres, Next(xres, s, Ctrl(reg)), Data(value))
  {
    var ops := [Ctrl(reg), Data(value)];
    assert Emit([WriteReg(reg, value)]) == ops;
    assert ops[1..] == [Data(value)];
    var s1 := Next(xres, s, Ctrl(reg));
    assert Run(xres, s, ops) == Run(xres, s1, [Data(value)]);
    assert Run(xres, s1, [Data(value)]) == Run(xres, Next(xres, s1, Data(value)), []);
  }

  /** One command, replayed. */
  lemma RunSendCmd(xres: nat, s: Hw, reg: nat)
    requires reg < 0x100
    ensures Run(xres, s, Emit([SendCmd(reg)])) == s.(index := reg)
  {
    assert Emit([SendCmd(reg)]) == [Ctrl(reg)];
  }

  /** A table replays entry by entry. */
  lemma RunCons(xres: nat, s: Hw, a: Action, rest: seq<Action>)
    ensures Run(xres, s, Emit([a] + rest)) == Run(xres, Run(xres, s, Emit([a])), Emit(rest))
  {
    EmitAppend([a], rest);
    RunAppend(xres, s, Emit([a]), Emit(rest));
  }

  /**
    Landscape entry mode, row 0, column 0: whatever the controller held
    before, its address counter is now at the origin.
  */
  lemma RunOrigin(xres: nat, s: Hw, rest: seq<Action>)
    ensures var s' := Run(xres, s, Emit([WriteReg(EntryModeReg, Landscape), WriteReg(RowReg, 0), WriteReg(ColumnReg, 0)] + rest));
            var o := Run(xres, s, Emit([WriteReg(EntryModeReg, Landscape), WriteReg(RowReg, 0), WriteReg(ColumnReg, 0)]));
            s' == Run(xres, o, Emit(rest)) && o.entry == Landscape && o.ac == 0 && o.stray == s.stray
  {
    var e, r, c := WriteReg(EntryModeReg, Landscape), WriteReg(RowReg, 0), WriteReg(ColumnReg, 0);
    assert [e, r, c] + rest == [e] + ([r] + ([c] + rest));
    assert [e, r, c] == [e] + ([r] + [c]);
    RunCons(xres, s, e, [r] + ([c] + rest));
    RunCons(xres, s, e, [r] + [c]);
    RunWriteReg(xres, s, EntryModeReg, Landscape);
    var s1 := Run(xres, s, Emit([e]));
    RunCons(xres, s1, r, [c] + rest);
    RunCons(xres, s1, r, [c]);
    RunWriteReg(xres, s1, RowReg, 0);
    var s2 := Run(xres, s1, Emit([r]));
    RunCons(xres, s2, c, rest);
    RunWriteReg(xres, s2, ColumnReg, 0);
    assert Emit([c]) + [] == Emit([c]);
    RunAppend(xres, s2, Emit([c]), []);
  }
}
