/** The control store the simulator is shipped with, and the proof that it meets every assumption
    the pipeline's correctness rests on. */
module Lc3bMicrocode {
  import opened Lc3bDatapath
  import opened Lc3bPipeline
  import opened Lc3bRuns

  /** A row of the microcode file: one character a bit. */
  type Row = t: string | |t| == NUM_CONTROL_STORE_BITS witness "00000000000000000000000"

  function RowBits(t: Row): (x: seq<bool>)
    ensures |x| == NUM_CONTROL_STORE_BITS
  {
    seq(NUM_CONTROL_STORE_BITS, i requires 0 <= i < NUM_CONTROL_STORE_BITS => t[i] == '1')
  }

  function BrRow(): Row { "00001011000010010000000" }
  function AddRegRow(): Row { "11000000000100000001111" }
  function AddImmRow(): Row { "10000000100100000001111" }
  function LdbRow(): Row { "10010101000000001000111" }
  function StbRow(): Row { "11010101011100001100000" }
  function JsrrRow(): Row { "10110001000001010001010" }
  function JsrRow(): Row { "00101111000001010001010" }
  function AndRegRow(): Row { "11000000001100000001111" }
  function AndImmRow(): Row { "10000000101100000001111" }
  function LdwRow(): Row { "10010111000000001010111" }
  function StwRow(): Row { "11010111011100001110000" }
  function RtiRow(): Row { "00000000000000000000000" }
  function XorRegRow(): Row { "11000000010100000001111" }
  function XorImmRow(): Row { "10000000110100000001111" }
  function JmpRow(): Row { "10010001000001010000000" }
  function ShfRow(): Row { "10000000000000000001111" }
  function LeaRow(): Row { "00001011000000000000010" }
  function TrapRow(): Row { "00100000000000111011010" }

  /** Row `i` of the file, selected by the opcode and instruction bits 11 and 5. */
  function RowText(i: nat): Row {
    if i < 4 then BrRow()
    else if i < 5 then AddRegRow()
    else if i < 6 then AddImmRow()
    else if i < 7 then AddRegRow()
    else if i < 8 then AddImmRow()
    else if i < 12 then LdbRow()
    else if i < 16 then StbRow()
    else if i < 18 then JsrrRow()
    else if i < 20 then JsrRow()
    else if i < 21 then AndRegRow()
    else if i < 22 then AndImmRow()
    else if i < 23 then AndRegRow()
    else if i < 24 then AndImmRow()
    else if i < 28 then LdwRow()
    else if i < 32 then StwRow()
    else if i < 36 then RtiRow()
    else if i < 37 then XorRegRow()
    else if i < 38 then XorImmRow()
    else if i < 39 then XorRegRow()
    else if i < 40 then XorImmRow()
    else if i < 48 then RtiRow()
    else if i < 52 then JmpRow()
    else if i < 56 then ShfRow()
    else if i < 60 then LeaRow()
    else TrapRow()
  }

  const UCODE: ControlStore := seq(64, i requires 0 <= i < 64 => ReadDeCs(RowBits(RowText(i))))

  predicate GoodText(t: Row) { WellFormedRow(ReadDeCs(RowBits(t))) }

  lemma GoodRows0()
    ensures GoodText(BrRow()) && GoodText(AddRegRow()) && GoodText(AddImmRow())
  {
  }

  lemma GoodRows1()
    ensures GoodText(LdbRow()) && GoodText(StbRow()) && GoodText(JsrrRow())
  {
  }

  lemma GoodRows2()
    ensures GoodText(JsrRow()) && GoodText(AndRegRow()) && GoodText(AndImmRow())
  {
  }

  lemma GoodRows3()
    ensures GoodText(LdwRow()) && GoodText(StwRow()) && GoodText(RtiRow())
  {
  }

  lemma GoodRows4()
    ensures GoodText(XorRegRow()) && GoodText(XorImmRow()) && GoodText(JmpRow())
  {
  }

  lemma GoodRows5()
    ensures GoodText(ShfRow()) && GoodText(LeaRow()) && GoodText(TrapRow())
  {
  }

  /** Every row of the shipped microcode is well formed. */
  lemma UcodeIsWellFormed()
    ensures WellFormed(UCODE)
  {
    hide ReadDeCs, WellFormedRow;
    forall i: nat | i < 64 ensures GoodText(RowText(i)) {
      hide GoodText;
      hide BrRow, AddRegRow, AddImmRow, LdbRow, StbRow, JsrrRow, JsrRow, AndRegRow, AndImmRow, LdwRow, StwRow, RtiRow, XorRegRow, XorImmRow, JmpRow, ShfRow, LeaRow, TrapRow;
      GoodRows0();
      GoodRows1();
      GoodRows2();
      GoodRows3();
      GoodRows4();
      GoodRows5();
    }
    forall i: nat | i < 64 ensures WellFormedRow(UCODE[i]) {
      hide RowText;
      assert GoodText(RowText(i));
    }
  }

  /** The simulator as shipped: from reset, every 21 * m cycles finish at least m instructions, and
      the drained machine is exactly the sequential machine after those instructions. */
  lemma ShippedMachineRunsProgram(s: State, m: nat)
    requires Empty(s)
    requires forall j :: 0 <= j < 21 * m ==> FetchesAfterStores(UCODE, s, j)
    ensures Fetched(UCODE, s, 21 * m) >= m
    ensures Drain(UCODE, Run(UCODE, s, 21 * m)) == IsaRun(UCODE, s.arch, Fetched(UCODE, s, 21 * m))
  {
    hide Run, IsaRun, Fetched, FetchesAfterStores, WellFormed, Drain, DrainMem, DrainAgex;
    UcodeIsWellFormed();
    EmptyIsDrained(UCODE, s);
    PipelineProgresses(UCODE, s, m);
    PipelineRunsProgram(UCODE, s, 21 * m);
  }
}
