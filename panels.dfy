/**
  The two panel descriptors the shared engine is parameterised by: their
  initialisation tables, the ILI9225 standby sequences, and the signatures
  each driver accepts at probe time.
*/
module Panels {
  import opened Bus
  import opened Controller

  /** The ILI9225 build option LCD_3V3 picks the 3.3 V tuning; without it, the 2.8 V one. */
  datatype Supply = Vci3V3 | Vci2V8

  datatype Panel = Ili9225(supply: Supply) | Tls8301s
  {
    /** The sequence setup replays. */
    function Init(): seq<Action>
    {
      match this
      case Ili9225(v) => Ili9225Tuning(v) + Ili9225Tail
      case Tls8301s => Tls8301sInit
    }

    /** The controller ids probe accepts after selecting register 0x00. */
    predicate Accepts(id: nat)
    {
      match this
      case Ili9225(_) => id == 0x9225 || id == 0x9226
      case Tls8301s => id == 0x9325
    }
  }

  /**
    The part of the ILI9225 sequence that LCD_3V3 selects between: oscillator
    and driver setup, 10 ms, power control, 120 ms, then voltages, window and
    gamma.
  */
  function Ili9225Tuning(v: Supply): seq<Action>
  {
    Ili9225Oscillator(v) + [Sleep(10)] + Ili9225Power + [Sleep(120)] + Ili9225Settings(v)
  }

  function Ili9225Settings(v: Supply): seq<Action>
  {
    Ili9225Vreg(v) + Ili9225Window + Ili9225Gamma(v)
  }

  function Ili9225Oscillator(v: Supply): seq<Action>
  {
    if v == Vci3V3 then
      [WriteReg(0xD0, 0x0003), WriteReg(0xEB, 0x0B00), WriteReg(0xEC, 0x000F), WriteReg(0xC7, 0x030F),
       WriteReg(0x01, 0x001C), WriteReg(0x02, 0x0100), WriteReg(0x03, 0x1030), WriteReg(0x08, 0x0808),
       WriteReg(0x0F, 0x0901)]
    else
      [WriteReg(0xD0, 0x0003), WriteReg(0xEB, 0x0B00), WriteReg(0xEC, 0x004F), WriteReg(0xC7, 0x003F),
       WriteReg(0x01, 0x001C), WriteReg(0x02, 0x0100), WriteReg(0x03, 0x1030), WriteReg(0x08, 0x0808),
       WriteReg(0x0F, 0x0A01)]
  }

  /** Identical in both builds. */
  const Ili9225Power: seq<Action> := [WriteReg(0x10, 0x0000), WriteReg(0x11, 0x1B41)]

  function Ili9225Vreg(v: Supply): seq<Action>
  {
    if v == Vci3V3 then [WriteReg(0x12, 0x200E), WriteReg(0x13, 0x0052), WriteReg(0x14, 0x4B5C)]
    else [WriteReg(0x12, 0x300E), WriteReg(0x13, 0x0057), WriteReg(0x14, 0x516B)]
  }

  /** Registers 0x30 to 0x39, identical in both builds. */
  const Ili9225Window: seq<Action> := [
    WriteReg(0x30, 0x0000), WriteReg(0x31, 0x00DB), WriteReg(0x32, 0x0000), WriteReg(0x33, 0x0000),
    WriteReg(0x34, 0x00DB), WriteReg(0x35, 0x0000), WriteReg(0x36, 0x00AF), WriteReg(0x37, 0x0000),
    WriteReg(0x38, 0x00DB), WriteReg(0x39, 0x0000)
  ]

  function Ili9225Gamma(v: Supply): seq<Action>
  {
    if v == Vci3V3 then
      [WriteReg(0x50, 0x0000), WriteReg(0x51, 0x0705), WriteReg(0x52, 0x0C0A), WriteReg(0x53, 0x0401),
       WriteReg(0x54, 0x040C), WriteReg(0x55, 0x0608), WriteReg(0x56, 0x0000), WriteReg(0x57, 0x0104),
       WriteReg(0x58, 0x0E06), WriteReg(0x59, 0x060E)]
    else
      [WriteReg(0x50, 0x0000), WriteReg(0x51, 0x060A), WriteReg(0x52, 0x0C08), WriteReg(0x53, 0x0400),
       WriteReg(0x54, 0x080C), WriteReg(0x55, 0x0B05), WriteReg(0x56, 0x0000), WriteReg(0x57, 0x0004),
       WriteReg(0x58, 0x0000), WriteReg(0x59, 0x0000)]
  }

  /** Shared by both ILI9225 builds: landscape entry mode, GRAM address (0,0), display on, select GRAM. */
  const Ili9225Tail: seq<Action> := [
    WriteReg(0x03, 0x1038), WriteReg(0x20, 0x0000), WriteReg(0x21, 0x0000), WriteReg(0x07, 0x1017),
    SendCmd(0x22)
  ]

  const Ili9225StandbyEnter: seq<Action> := [WriteReg(0x07, 0x0000), Sleep(50), WriteReg(0x10, 0x0001)]

  const Ili9225StandbyExit: seq<Action> := [WriteReg(0x10, 0x0000), Sleep(120), WriteReg(0x07, 0x1017)]

  /** The TLS8301S sequence: power-up, then display on and the landscape GRAM window. */
  const Tls8301sInit: seq<Action> := Tls8301sPowerUp + Tls8301sTail

  /** Runs of register writes separated by the six delays. */
  const Tls8301sPowerUp: seq<Action> :=
    (Tls8301sDisplayOff + Tls8301sOscillator) + [Sleep(50)]
    + (Tls8301sControl + Tls8301sPowerOff) + [Sleep(200)]
    + Tls8301sPowerOn + [Sleep(50)]
    + [WriteReg(0x12, 0x011C)] + [Sleep(50)]
    + [WriteReg(0x13, 0x1000), WriteReg(0x29, 0x0025)] + [Sleep(50)]
    + (Tls8301sGamma + Tls8301sArea + Tls8301sPartial + Tls8301sPanel + [WriteReg(0x07, 0x0022)]) + [Sleep(70)]

  const Tls8301sDisplayOff: seq<Action> :=
    [WriteReg(0x07, 0x0030), WriteReg(0x07, 0x0000), WriteReg(0x10, 0x0000), WriteReg(0x12, 0x0000)]

  const Tls8301sOscillator: seq<Action> := [WriteReg(0xE5, 0x8000), WriteReg(0x00, 0x0001)]

  const Tls8301sControl: seq<Action> := [
    WriteReg(0x01, 0x0100), WriteReg(0x02, 0x0700), WriteReg(0x03, 0x0030), WriteReg(0x04, 0x0000),
    WriteReg(0x08, 0x0202), WriteReg(0x09, 0x0000), WriteReg(0x0A, 0x0000), WriteReg(0x0C, 0x0001),
    WriteReg(0x0D, 0x0000), WriteReg(0x0F, 0x0000)
  ]

  const Tls8301sPowerOff: seq<Action> :=
    [WriteReg(0x10, 0x0000), WriteReg(0x11, 0x0007), WriteReg(0x12, 0x0000), WriteReg(0x13, 0x0000)]

  const Tls8301sPowerOn: seq<Action> := [WriteReg(0x10, 0x17B0), WriteReg(0x11, 0x0037)]

  const Tls8301sGamma: seq<Action> := [
    WriteReg(0x30, 0x0000), WriteReg(0x31, 0x0404), WriteReg(0x32, 0x0404), WriteReg(0x35, 0x0004),
    WriteReg(0x36, 0x0404), WriteReg(0x37, 0x0404), WriteReg(0x38, 0x0404), WriteReg(0x39, 0x0707),
    WriteReg(0x3C, 0x0500), WriteReg(0x3D, 0x0607)
  ]

  const Tls8301sArea: seq<Action> := [
    WriteReg(0x50, 0x0000), WriteReg(0x51, 0x00AF), WriteReg(0x52, 0x0000), WriteReg(0x53, 0x00DB),
    WriteReg(0x60, 0xB700), WriteReg(0x61, 0x0001), WriteReg(0x6A, 0x0000)
  ]

  const Tls8301sPartial: seq<Action> := [
    WriteReg(0x80, 0x0000), WriteReg(0x81, 0x0000), WriteReg(0x82, 0x0000), WriteReg(0x83, 0x0000),
    WriteReg(0x84, 0x0000), WriteReg(0x85, 0x0000)
  ]

  const Tls8301sPanel: seq<Action> := [
    WriteReg(0x90, 0x0015), WriteReg(0x92, 0x0000), WriteReg(0x93, 0x0003), WriteReg(0x95, 0x0110),
    WriteReg(0x97, 0x0000), WriteReg(0x98, 0x0000)
  ]

  /** Display on, landscape entry mode, GRAM address (0,0), select GRAM. */
  const Tls8301sTail: seq<Action> := [
    WriteReg(0x07, 0x0133), WriteReg(0x03, 0x1038), WriteReg(0x20, 0x0000), WriteReg(0x21, 0x0000),
    SendCmd(0x22)
  ]

  /** An entry with its value blanked: what is left is the register, the command or the delay. */
  function Skeleton(a: Action): Action
  {
    if a.WriteReg? then WriteReg(a.reg, 0) else a
  }

  function Skeletons(t: seq<Action>): (r: seq<Action>)
    ensures |r| == |t|
    ensures forall k :: 0 <= k < |t| ==> r[k] == Skeleton(t[k])
  {
    if t == [] then [] else [Skeleton(t[0])] + Skeletons(t[1..])
  }

  lemma SkeletonsAppend(a: seq<Action>, b: seq<Action>)
    ensures Skeletons(a + b) == Skeletons(a) + Skeletons(b)
  {
    assert forall k :: 0 <= k < |b| ==> (a + b)[|a| + k] == b[k];
  }

  /** The delays of a table, in order. */
  function Delays(t: seq<Action>): seq<nat>
  {
    if t == [] then []
    else (if t[0].Sleep? then [t[0].ms] else []) + Delays(t[1..])
  }

  lemma {:induction false} DelaysAppend(a: seq<Action>, b: seq<Action>)
    ensures Delays(a + b) == Delays(a) + Delays(b)
  {
    if a == [] {
      assert a + b == b;
    } else {
      var head := if a[0].Sleep? then [a[0].ms] else [];
      assert (a + b)[0] == a[0];
      assert (a + b)[1..] == a[1..] + b;
      DelaysAppend(a[1..], b);
      assert Delays(a + b) == head + (Delays(a[1..]) + Delays(b));
      assert head + (Delays(a[1..]) + Delays(b)) == (head + Delays(a[1..])) + Delays(b);
    }
  }

  lemma {:induction false} NoDelays(t: seq<Action>)
    requires forall k :: 0 <= k < |t| ==> !t[k].Sleep?
    ensures Delays(t) == []
  {
    if t != [] {
      NoDelays(t[1..]);
    }
  }

  /** A pause between two runs of writes adds exactly that delay. */
  lemma DelaysThenPause(a: seq<Action>, ms: nat, b: seq<Action>)
    requires Delays(b) == []
    ensures Delays(a + [Sleep(ms)] + b) == Delays(a) + [ms]
  {
    DelaysAppend(a, [Sleep(ms)]);
    DelaysAppend(a + [Sleep(ms)], b);
  }

  /** Sequence helper: `b` is what follows `a` in `a + b`. */
  lemma SuffixOf(a: seq<Action>, b: seq<Action>)
    ensures (a + b)[|a|..] == b
  {
  }

  /** Any table shaped like the ILI9225 one waits 10 ms, then 120 ms. */
  lemma Ili9225Pacing(a: seq<Action>, b: seq<Action>, c: seq<Action>, d: seq<Action>)
    requires Delays(a) == [] && Delays(b) == [] && Delays(c) == [] && Delays(d) == []
    ensures Delays(a + [Sleep(10)] + b + [Sleep(120)] + c + d) == [10, 120]
  {
    assert Delays(a + [Sleep(10)] + b) == [10] by { DelaysThenPause(a, 10, b); }
    assert Delays(a + [Sleep(10)] + b + [Sleep(120)] + c) == [10, 120] by {
      DelaysThenPause(a + [Sleep(10)] + b, 120, c);
    }
    DelaysAppend(a + [Sleep(10)] + b + [Sleep(120)] + c, d);
  }

  lemma Ili9225OscillatorShape()
    ensures Skeletons(Ili9225Oscillator(Vci3V3)) == Skeletons(Ili9225Oscillator(Vci2V8))
  {
    SameRegisters(Ili9225Oscillator(Vci3V3), Ili9225Oscillator(Vci2V8));
  }

  lemma Ili9225SettingsShape()
    ensures Skeletons(Ili9225Settings(Vci3V3)) == Skeletons(Ili9225Settings(Vci2V8))
  {
    Ili9225VregShape();
    Ili9225GammaShape();
    SameAround(Ili9225Vreg(Vci3V3), Ili9225Window, Ili9225Gamma(Vci3V3), Ili9225Vreg(Vci2V8), Ili9225Gamma(Vci2V8));
  }

  lemma Ili9225VregShape()
    ensures Skeletons(Ili9225Vreg(Vci3V3)) == Skeletons(Ili9225Vreg(Vci2V8))
  {
    SameRegisters(Ili9225Vreg(Vci3V3), Ili9225Vreg(Vci2V8));
  }

  lemma Ili9225GammaShape()
    ensures Skeletons(Ili9225Gamma(Vci3V3)) == Skeletons(Ili9225Gamma(Vci2V8))
  {
    SameRegisters(Ili9225Gamma(Vci3V3), Ili9225Gamma(Vci2V8));
  }

  /** Tables that write the same registers at the same places agree in shape. */
  lemma SameRegisters(a: seq<Action>, b: seq<Action>)
    requires |a| == |b| && forall k :: 0 <= k < |a| ==> Skeleton(a[k]) == Skeleton(b[k])
    ensures Skeletons(a) == Skeletons(b)
  {
  }

  /** Tables that agree in shape piece by piece around a shared middle agree in shape. */
  lemma SameAround(a: seq<Action>, m: seq<Action>, c: seq<Action>, a': seq<Action>, c': seq<Action>)
    requires Skeletons(a) == Skeletons(a') && Skeletons(c) == Skeletons(c')
    ensures Skeletons(a + m + c) == Skeletons(a' + m + c')
  {
    SkeletonsAppend(a, m);
    SkeletonsAppend(a', m);
    SkeletonsAppend(a + m, c);
    SkeletonsAppend(a' + m, c');
  }

  /**
    The two ILI9225 builds write the same registers in the same order, with
    the same delays at the same places; only the values differ.
  */
  lemma Ili9225BuildsAgree()
    ensures Skeletons(Ili9225(Vci3V3).Init()) == Skeletons(Ili9225(Vci2V8).Init())
  {
    Ili9225OscillatorShape();
    Ili9225SettingsShape();
    SameShape(Ili9225Oscillator(Vci3V3), Ili9225Settings(Vci3V3), Ili9225Oscillator(Vci2V8), Ili9225Settings(Vci2V8));
  }

  /** Sequence helper: regroups the ILI9225 concatenation, kept apart so the table proofs stay small. */
  lemma Regroup(o: seq<Action>, x: seq<Action>, y: seq<Action>, z: seq<Action>, s: seq<Action>, t: seq<Action>)
    ensures o + x + y + z + s + t == o + (x + y + z) + s + t
  {
  }

  lemma SameShape(o3: seq<Action>, s3: seq<Action>, o2: seq<Action>, s2: seq<Action>)
    requires Skeletons(o3) == Skeletons(o2) && Skeletons(s3) == Skeletons(s2)
    ensures Skeletons(o3 + [Sleep(10)] + Ili9225Power + [Sleep(120)] + s3 + Ili9225Tail)
         == Skeletons(o2 + [Sleep(10)] + Ili9225Power + [Sleep(120)] + s2 + Ili9225Tail)
  {
    var p := [Sleep(10)] + Ili9225Power + [Sleep(120)];
    Regroup(o3, [Sleep(10)], Ili9225Power, [Sleep(120)], s3, Ili9225Tail);
    Regroup(o2, [Sleep(10)], Ili9225Power, [Sleep(120)], s2, Ili9225Tail);
    SameAround(o3, p, s3, o2, s2);
    SkeletonsAppend(o3 + p + s3, Ili9225Tail);
    SkeletonsAppend(o2 + p + s2, Ili9225Tail);
  }

  lemma Ili9225OscillatorQuiet(v: Supply)
    ensures Delays(Ili9225Oscillator(v)) == []
  {
    NoDelays(Ili9225Oscillator(v));
  }

  lemma Ili9225SettingsQuiet(v: Supply)
    ensures Delays(Ili9225Settings(v)) == []
  {
    NoDelays(Ili9225Settings(v));
  }

  lemma ShortRunsQuiet()
    ensures Delays(Ili9225Power) == [] && Delays(Ili9225Tail) == []
    ensures Delays(Tls8301sPowerOn) == [] && Delays(Tls8301sTail) == []
  {
    NoDelays(Ili9225Power);
    NoDelays(Ili9225Tail);
    NoDelays(Tls8301sPowerOn);
    NoDelays(Tls8301sTail);
  }

  /**
    Either ILI9225 build waits exactly twice: 10 ms right after register
    0x0F and 120 ms right after register 0x11.
  */
  lemma Ili9225Delays(v: Supply)
    ensures Delays(Ili9225(v).Init()) == [10, 120]
    ensures Ili9225(v).Init()[8].reg == 0x0F && Ili9225(v).Init()[9] == Sleep(10)
    ensures Ili9225(v).Init()[11].reg == 0x11 && Ili9225(v).Init()[12] == Sleep(120)
  {
    Ili9225OscillatorQuiet(v);
    Ili9225SettingsQuiet(v);
    ShortRunsQuiet();
    Ili9225Pacing(Ili9225Oscillator(v), Ili9225Power, Ili9225Settings(v), Ili9225Tail);
    PausePlaces(Ili9225Oscillator(v), Ili9225Power, Ili9225Settings(v), Ili9225Tail);
  }

  /**
    Where the two pauses of an ILI9225 sequence sit, for a 9-write prefix and a
    2-write power run; stated on abstract runs so that the literal tables are
    not unfolded while indexing.
  */
  lemma PausePlaces(o: seq<Action>, p: seq<Action>, s: seq<Action>, tail: seq<Action>)
    requires |o| == 9 && |p| == 2
    ensures var t := o + [Sleep(10)] + p + [Sleep(120)] + s + tail;
            t[8] == o[8] && t[9] == Sleep(10) && t[11] == p[1] && t[12] == Sleep(120)
  {
  }

  /**
    Both ILI9225 builds end by selecting landscape entry mode, GRAM address
    (0, 0), display on, and the GRAM access command.
  */
  lemma Ili9225Ending(v: Supply)
    ensures var t := Ili9225(v).Init();
            |t| >= 5 &&
            t[|t| - 5..] == [WriteReg(0x03, 0x1038), WriteReg(0x20, 0), WriteReg(0x21, 0),
                             WriteReg(0x07, 0x1017), SendCmd(0x22)]
  {
    SuffixOf(Ili9225Tuning(v), Ili9225Tail);
  }

  /** On the bus: standby enter is 0x07=0, 50 ms, 0x10=1; standby exit is 0x10=0, 120 ms, 0x07=0x1017. */
  lemma Ili9225StandbyOnBus()
    ensures Emit(Ili9225StandbyEnter) == [Ctrl(0x07), Data(0), Delay(50), Ctrl(0x10), Data(1)]
    ensures Emit(Ili9225StandbyExit) == [Ctrl(0x10), Data(0), Delay(120), Ctrl(0x07), Data(0x1017)]
  {
  }

  /**
    Either standby sequence ends with a register write other than the GRAM
    command, so it leaves 0x22 deselected: whatever the cursor, the controller
    is out of sync afterwards, and a copy that skips the window would write
    its burst into that register instead of the GRAM.
  */
  lemma StandbyDeselectsGram(xres: nat, s: Hw)
    ensures Run(xres, s, Emit(Ili9225StandbyEnter)).index == 0x10
    ensures Run(xres, s, Emit(Ili9225StandbyExit)).index == 0x07
    ensures forall c: nat :: !InSync(Run(xres, s, Emit(Ili9225StandbyEnter)), c)
    ensures forall c: nat :: !InSync(Run(xres, s, Emit(Ili9225StandbyExit)), c)
  {
    Ili9225StandbyOnBus();
    var enterHead, exitHead := [Ctrl(0x07), Data(0), Delay(50)], [Ctrl(0x10), Data(0), Delay(120)];
    assert Emit(Ili9225StandbyEnter) == enterHead + [Ctrl(0x10), Data(1)];
    assert Emit(Ili9225StandbyExit) == exitHead + [Ctrl(0x07), Data(0x1017)];
    RunAppend(xres, s, enterHead, [Ctrl(0x10), Data(1)]);
    RunAppend(xres, s, exitHead, [Ctrl(0x07), Data(0x1017)]);
  }

  /** Any table shaped like the TLS8301S one waits 50, 200, 50, 50, 50 and 70 ms, in that order. */
  lemma Tls8301sPacing(w1: seq<Action>, w2: seq<Action>, w3: seq<Action>, w4: seq<Action>,
                       w5: seq<Action>, w6: seq<Action>, w7: seq<Action>)
    requires Delays(w1) == [] && Delays(w2) == [] && Delays(w3) == [] && Delays(w4) == []
    requires Delays(w5) == [] && Delays(w6) == [] && Delays(w7) == []
    ensures Delays(w1 + [Sleep(50)] + w2 + [Sleep(200)] + w3 + [Sleep(50)] + w4 + [Sleep(50)]
                   + w5 + [Sleep(50)] + w6 + [Sleep(70)] + w7) == [50, 200, 50, 50, 50, 70]
  {
    var t1 := w1 + [Sleep(50)] + w2;
    assert Delays(t1) == [50] by { DelaysThenPause(w1, 50, w2); }
    var t2 := t1 + [Sleep(200)] + w3;
    assert Delays(t2) == [50, 200] by { DelaysThenPause(t1, 200, w3); }
    var t3 := t2 + [Sleep(50)] + w4;
    assert Delays(t3) == [50, 200, 50] by { DelaysThenPause(t2, 50, w4); }
    var t4 := t3 + [Sleep(50)] + w5;
    assert Delays(t4) == [50, 200, 50, 50] by { DelaysThenPause(t3, 50, w5); }
    var t5 := t4 + [Sleep(50)] + w6;
    assert Delays(t5) == [50, 200, 50, 50, 50] by { DelaysThenPause(t4, 50, w6); }
    DelaysThenPause(t5, 70, w7);
  }

  lemma Tls8301sSetupQuiet()
    ensures Delays(Tls8301sDisplayOff + Tls8301sOscillator) == []
    ensures Delays(Tls8301sControl + Tls8301sPowerOff) == []
  {
    NoDelays(Tls8301sDisplayOff + Tls8301sOscillator);
    NoDelays(Tls8301sControl + Tls8301sPowerOff);
  }

  lemma Tls8301sPanelQuiet()
    ensures Delays(Tls8301sGamma + Tls8301sArea + Tls8301sPartial + Tls8301sPanel + [WriteReg(0x07, 0x0022)]) == []
  {
    NoDelays(Tls8301sGamma + Tls8301sArea + Tls8301sPartial + Tls8301sPanel + [WriteReg(0x07, 0x0022)]);
  }

  /**
    The TLS8301S sequence starts with the display-off writes, waits 50, 200,
    50, 50, 50 and 70 ms in that order, and ends with display on, landscape
    entry mode, GRAM address (0, 0) and the GRAM access command.
  */
  lemma Tls8301sShape()
    ensures var t := Tls8301s.Init();
            |t| >= 5 &&
            t[..4] == [WriteReg(0x07, 0x0030), WriteReg(0x07, 0), WriteReg(0x10, 0), WriteReg(0x12, 0)] &&
            Delays(t) == [50, 200, 50, 50, 50, 70] &&
            t[|t| - 5..] == [WriteReg(0x07, 0x0133), WriteReg(0x03, 0x1038), WriteReg(0x20, 0),
                             WriteReg(0x21, 0), SendCmd(0x22)]
  {
    Tls8301sStart();
    Tls8301sSetupQuiet();
    Tls8301sPanelQuiet();
    ShortRunsQuiet();
    assert Delays([WriteReg(0x12, 0x011C)]) == [];
    assert Delays([WriteReg(0x13, 0x1000), WriteReg(0x29, 0x0025)]) == [];
    Tls8301sPacing(Tls8301sDisplayOff + Tls8301sOscillator, Tls8301sControl + Tls8301sPowerOff, Tls8301sPowerOn,
                   [WriteReg(0x12, 0x011C)], [WriteReg(0x13, 0x1000), WriteReg(0x29, 0x0025)],
                   Tls8301sGamma + Tls8301sArea + Tls8301sPartial + Tls8301sPanel + [WriteReg(0x07, 0x0022)],
                   Tls8301sTail);
  }

  /** The first four TLS8301S writes turn the display off. */
  lemma Tls8301sStart()
    ensures |Tls8301sInit| >= 4 &&
            Tls8301sInit[..4] == [WriteReg(0x07, 0x0030), WriteReg(0x07, 0), WriteReg(0x10, 0), WriteReg(0x12, 0)]
  {
    OpensWith(Tls8301sDisplayOff, Tls8301sOscillator + [Sleep(50)], Tls8301sInit);
  }

  /** Sequence helper, kept apart from the literal tables: a sequence that opens with `a + b` opens with `a`. */
  lemma OpensWith(a: seq<Action>, b: seq<Action>, t: seq<Action>)
    requires |t| >= |a + b| && t[..|a + b|] == a + b
    ensures t[..|a|] == a
  {
    assert t[..|a|] == (a + b)[..|a|];
  }

  /** Well-formedness is checked entry by entry, so it survives concatenation. */
  lemma WellFormedAppend(a: seq<Action>, b: seq<Action>)
    requires AllWellFormed(a) && AllWellFormed(b)
    ensures AllWellFormed(a + b)
  {
    forall k | 0 <= k < |a + b| ensures WellFormed((a + b)[k]) {
      if k >= |a| {
        assert (a + b)[k] == b[k - |a|];
      }
    }
  }

  lemma Ili9225RunsWellFormed(v: Supply)
    ensures AllWellFormed(Ili9225Oscillator(v)) && AllWellFormed(Ili9225Settings(v))
  {
    Ili9225OscillatorFits(v);
    Ili9225VregFits(v);
    Ili9225WindowFits();
    Ili9225GammaFits(v);
    WellFormedAppend(Ili9225Vreg(v), Ili9225Window);
    WellFormedAppend(Ili9225Vreg(v) + Ili9225Window, Ili9225Gamma(v));
  }

  // The per-run *Fits lemmas below are a split of the table proofs: each run
  // of literal writes is checked on its own, then assembled.

  lemma Ili9225OscillatorFits(v: Supply)
    ensures AllWellFormed(Ili9225Oscillator(v))
  {
  }

  lemma Ili9225VregFits(v: Supply)
    ensures AllWellFormed(Ili9225Vreg(v))
  {
  }

  lemma Ili9225WindowFits()
    ensures AllWellFormed(Ili9225Window)
  {
  }

  lemma Ili9225GammaFits(v: Supply)
    ensures AllWellFormed(Ili9225Gamma(v))
  {
  }

  lemma Tls8301sRunsWellFormed()
    ensures AllWellFormed(Tls8301sDisplayOff + Tls8301sOscillator)
    ensures AllWellFormed(Tls8301sControl + Tls8301sPowerOff)
    ensures AllWellFormed(Tls8301sGamma + Tls8301sArea + Tls8301sPartial + Tls8301sPanel + [WriteReg(0x07, 0x0022)])
  {
  }

  /** Every table entry fits the bus: registers in a byte, values in a word. */
  lemma TablesWellFormed(p: Panel)
    ensures AllWellFormed(p.Init())
    ensures AllWellFormed(Ili9225StandbyEnter) && AllWellFormed(Ili9225StandbyExit)
  {
    match p
    case Ili9225(v) =>
      Ili9225RunsWellFormed(v);
      Ili9225Fits(Ili9225Oscillator(v), Ili9225Settings(v));
    case Tls8301s =>
      Tls8301sRunsWellFormed();
      Tls8301sFits(Tls8301sDisplayOff + Tls8301sOscillator, Tls8301sControl + Tls8301sPowerOff,
                   Tls8301sGamma + Tls8301sArea + Tls8301sPartial + Tls8301sPanel + [WriteReg(0x07, 0x0022)]);
  }

  /** Assembles the ILI9225 well-formedness facts run by run. */
  lemma Ili9225Fits(o: seq<Action>, s: seq<Action>)
    requires AllWellFormed(o) && AllWellFormed(s)
    ensures AllWellFormed(o + [Sleep(10)] + Ili9225Power + [Sleep(120)] + s + Ili9225Tail)
  {
    var t := o;
    WellFormedAppend(t, [Sleep(10)]); t := t + [Sleep(10)];
    WellFormedAppend(t, Ili9225Power); t := t + Ili9225Power;
    WellFormedAppend(t, [Sleep(120)]); t := t + [Sleep(120)];
    WellFormedAppend(t, s); t := t + s;
    WellFormedAppend(t, Ili9225Tail);
  }

  /** Assembles the TLS8301S well-formedness facts run by run. */
  lemma Tls8301sFits(w1: seq<Action>, w2: seq<Action>, w6: seq<Action>)
    requires AllWellFormed(w1) && AllWellFormed(w2) && AllWellFormed(w6)
    ensures AllWellFormed(w1 + [Sleep(50)] + w2 + [Sleep(200)] + Tls8301sPowerOn + [Sleep(50)]
                          + [WriteReg(0x12, 0x011C)] + [Sleep(50)]
                          + [WriteReg(0x13, 0x1000), WriteReg(0x29, 0x0025)] + [Sleep(50)]
                          + w6 + [Sleep(70)] + Tls8301sTail)
  {
    var t := w1;
    WellFormedAppend(t, [Sleep(50)]); t := t + [Sleep(50)];
    WellFormedAppend(t, w2); t := t + w2;
    WellFormedAppend(t, [Sleep(200)]); t := t + [Sleep(200)];
    WellFormedAppend(t, Tls8301sPowerOn); t := t + Tls8301sPowerOn;
    WellFormedAppend(t, [Sleep(50)]); t := t + [Sleep(50)];
    WellFormedAppend(t, [WriteReg(0x12, 0x011C)]); t := t + [WriteReg(0x12, 0x011C)];
    WellFormedAppend(t, [Sleep(50)]); t := t + [Sleep(50)];
    WellFormedAppend(t, [WriteReg(0x13, 0x1000), WriteReg(0x29, 0x0025)]);
    t := t + [WriteReg(0x13, 0x1000), WriteReg(0x29, 0x0025)];
    WellFormedAppend(t, [Sleep(50)]); t := t + [Sleep(50)];
    WellFormedAppend(t, w6); t := t + w6;
    WellFormedAppend(t, [Sleep(70)]); t := t + [Sleep(70)];
    WellFormedAppend(t, Tls8301sTail);
  }

  lemma Ili9225EndsAtOrigin(xres: nat, s: Hw, prefix: seq<Action>)
    requires !s.stray
    ensures InSync(Run(xres, s, Emit(prefix + Ili9225Tail)), 0)
  {
    EmitAppend(prefix, Ili9225Tail);
    RunAppend(xres, s, Emit(prefix), Emit(Ili9225Tail));
    TableKeepsStray(xres, s, prefix);
    var s1 := Run(xres, s, Emit(prefix));
    var rest := [WriteReg(0x07, 0x1017), SendCmd(GramReg)];
    assert Ili9225Tail == [WriteReg(EntryModeReg, Landscape), WriteReg(RowReg, 0), WriteReg(ColumnReg, 0)] + rest;
    RunOrigin(xres, s1, rest);
    var o := Run(xres, s1, Emit([WriteReg(EntryModeReg, Landscape), WriteReg(RowReg, 0), WriteReg(ColumnReg, 0)]));
    RunCons(xres, o, WriteReg(0x07, 0x1017), [SendCmd(GramReg)]);
    RunWriteReg(xres, o, 0x07, 0x1017);
    RunSendCmd(xres, Run(xres, o, Emit([WriteReg(0x07, 0x1017)])), GramReg);
  }

  lemma Tls8301sEndsAtOrigin(xres: nat, s: Hw, prefix: seq<Action>)
    requires !s.stray
    ensures InSync(Run(xres, s, Emit(prefix + Tls8301sTail)), 0)
  {
    EmitAppend(prefix, Tls8301sTail);
    RunAppend(xres, s, Emit(prefix), Emit(Tls8301sTail));
    TableKeepsStray(xres, s, prefix);
    var s1 := Run(xres, s, Emit(prefix));
    var window := [WriteReg(EntryModeReg, Landscape), WriteReg(RowReg, 0), WriteReg(ColumnReg, 0)];
    assert Tls8301sTail == [WriteReg(0x07, 0x0133)] + (window + [SendCmd(GramReg)]);
    RunCons(xres, s1, WriteReg(0x07, 0x0133), window + [SendCmd(GramReg)]);
    RunWriteReg(xres, s1, 0x07, 0x0133);
    var s2 := Run(xres, s1, Emit([WriteReg(0x07, 0x0133)]));
    RunOrigin(xres, s2, [SendCmd(GramReg)]);
    RunSendCmd(xres, Run(xres, s2, Emit(window)), GramReg);
  }

  /**
    Whatever state the controller was in, once setup has replayed either
    panel's sequence the GRAM is selected, entry mode is landscape and the
    address counter is at the origin: the first word written lands at
    framebuffer offset 0.
  */
  lemma SetupLeavesGramAtOrigin(p: Panel, xres: nat, s: Hw)
    requires !s.stray
    ensures InSync(Run(xres, s, Emit(p.Init())), 0)
  {
    match p
    case Ili9225(v) => Ili9225EndsAtOrigin(xres, s, Ili9225Tuning(v));
    case Tls8301s => Tls8301sEndsAtOrigin(xres, s, Tls8301sPowerUp);
  }
}
