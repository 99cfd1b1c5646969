/** The input scan of an applet: gate edges and changed control voltages, step by step. */
module Inputs {

  const SLOTS := 4
  const THRESHOLD := 32

  datatype Kind = Gate | Cv | Audio

  /** What one step delivers for one input: whether a bus is selected, for a gate the samples above the gate
      threshold, for a control voltage the value read from the bus. */
  datatype BusReading = BusReading(connected: bool, high: seq<bool>, cv: int)

  /** Gates among the first i inputs. */
  function Gates(manifest: seq<Kind>, i: nat): (g: nat)
    requires i <= |manifest|
    ensures g <= i
  {
    if i == 0 then 0 else Gates(manifest, i - 1) + if manifest[i - 1] == Gate then 1 else 0
  }

  /** The slot of input i: its rank among the inputs of its kind, gates on one side, voltages on the other. */
  function SlotOf(manifest: seq<Kind>, i: nat): nat
    requires i < |manifest|
  {
    if manifest[i] == Gate then Gates(manifest, i) else i - Gates(manifest, i)
  }

  predicate HasRoom(manifest: seq<Kind>) {
    Gates(manifest, |manifest|) <= SLOTS && |manifest| - Gates(manifest, |manifest|) <= SLOTS
  }

  lemma {:induction false} GatesGrow(manifest: seq<Kind>, i: nat, j: nat)
    requires i <= j <= |manifest|
    ensures Gates(manifest, i) <= Gates(manifest, j) <= Gates(manifest, i) + (j - i)
    decreases j
  {
    if i < j {
      GatesGrow(manifest, i, j - 1);
    }
  }

  lemma SlotsFit(manifest: seq<Kind>, i: nat)
    requires HasRoom(manifest) && i < |manifest|
    ensures SlotOf(manifest, i) < SLOTS
  {
    GatesGrow(manifest, i + 1, |manifest|);
  }

  /** Two inputs share a slot only if one is a gate and the other is not. */
  lemma SlotsAreDistinct(manifest: seq<Kind>, i: nat, j: nat)
    requires i < j < |manifest| && (manifest[i] == Gate <==> manifest[j] == Gate)
    ensures SlotOf(manifest, i) < SlotOf(manifest, j)
  {
    GatesGrow(manifest, i + 1, j);
  }

  // ---- One input --------------------------------------------------------------------------------

  /** The slot of an input is the number of inputs of its kind before it. */
  lemma {:induction false} SlotIsRank(manifest: seq<Kind>, i: nat)
    requires i < |manifest|
    ensures SlotOf(manifest, i) == |set j: nat | j < i && (manifest[j] == Gate <==> manifest[i] == Gate)|
  {
    GatesAreCounted(manifest, i);
    var gates, others := set j: nat | j < i && manifest[j] == Gate, set j: nat | j < i && manifest[j] != Gate;
    if manifest[i] == Gate {
      assert gates == set j: nat | j < i && (manifest[j] == Gate <==> manifest[i] == Gate);
    } else {
      assert others == set j: nat | j < i && (manifest[j] == Gate <==> manifest[i] == Gate);
    }
  }

  lemma {:induction false} GatesAreCounted(manifest: seq<Kind>, i: nat)
    requires i <= |manifest|
    ensures Gates(manifest, i) == |set j: nat | j < i && manifest[j] == Gate|
    ensures i - Gates(manifest, i) == |set j: nat | j < i && manifest[j] != Gate|
  {
    var gates, others := set j: nat | j < i && manifest[j] == Gate, set j: nat | j < i && manifest[j] != Gate;
    if i == 0 {
      assert gates == {} && others == {};
    } else {
      GatesAreCounted(manifest, i - 1);
      var gates', others' := set j: nat | j < i - 1 && manifest[j] == Gate, set j: nat | j < i - 1 && manifest[j] != Gate;
      if manifest[i - 1] == Gate {
        assert gates == gates' + {i - 1} && others == others';
      } else {
        assert others == others' + {i - 1} && gates == gates';
      }
    }
  }

  /** Sample k is high and the one before it, the carried level for the first, is low. */
  predicate EdgeAt(prev: bool, high: seq<bool>, k: nat)
    requires k < |high|
  {
    high[k] && !(if k == 0 then prev else high[k - 1])
  }

  predicate HasEdge(prev: bool, high: seq<bool>) {
    exists k :: 0 <= k < |high| && EdgeAt(prev, high, k)
  }

  function LastLevel(prev: bool, high: seq<bool>): bool {
    if high == [] then prev else high[|high| - 1]
  }

  /** An edge is a sample that is high behind one that is low. */
  lemma EdgesAre(prev: bool, high: seq<bool>, from: nat)
    ensures (exists k :: from <= k < |high| && EdgeAt(prev, high, k))
       <==> exists k :: from <= k < |high| && high[k] && !(if k == 0 then prev else high[k - 1])
  {
    if k :| from <= k < |high| && high[k] && !(if k == 0 then prev else high[k - 1]) {
      assert EdgeAt(prev, high, k);
    }
  }

  lemma HasEdgeSnoc(prev: bool, high: seq<bool>, b: bool)
    ensures HasEdge(prev, high + [b]) <==> HasEdge(prev, high) || (b && !LastLevel(prev, high))
  {
    var all := high + [b];
    assert forall k :: 0 <= k < |high| ==> EdgeAt(prev, all, k) == EdgeAt(prev, high, k);
    assert EdgeAt(prev, all, |high|) <==> b && !LastLevel(prev, high);
  }

  /** `read_gate`: an input without a bus is low and forgets its level. */
  method ReadGate(r: BusReading, prevHigh: bool) returns (rising: bool, high: bool, prev: bool)
    ensures rising == (r.connected && HasEdge(prevHigh, r.high))
    ensures rising <==> r.connected && exists k :: 0 <= k < |r.high| && r.high[k] && !(if k == 0 then prevHigh else r.high[k - 1])
    ensures high == prev == (r.connected && LastLevel(prevHigh, r.high))
  {
    EdgesAre(prevHigh, r.high, 0);
    hide HasEdge;
    if !r.connected {
      return false, false, false;
    }
    rising := false;
    var lastHigh := prevHigh;
    NoEdge(prevHigh);
    for i := 0 to |r.high|
      invariant lastHigh == LastLevel(prevHigh, r.high[..i]) && rising == HasEdge(prevHigh, r.high[..i])
    {
      assert r.high[..i + 1] == r.high[..i] + [r.high[i]];
      HasEdgeSnoc(prevHigh, r.high[..i], r.high[i]);
      if r.high[i] && !lastHigh {
        rising := true;
      }
      lastHigh := r.high[i];
    }
    assert r.high[..|r.high|] == r.high;
    high, prev := lastHigh, lastHigh;
  }

  lemma NoEdge(prev: bool)
    ensures !HasEdge(prev, [])
  {
  }

  function Distance(a: int, b: int): nat {
    if a < b then b - a else a - b
  }

  predicate Changed(last: int, input: int) {
    Distance(input, last) > THRESHOLD
  }

  function NextLast(last: int, input: int): int {
    if Changed(last, input) then input else last
  }

  // ---- The scan ---------------------------------------------------------------------------------

  /** The voltage a reading puts into the frame. */
  function Voltage(r: BusReading): int {
    if r.connected then r.cv else 0
  }

  class Scanner {
    var lastCv: seq<int>
    var gatePrev: seq<bool>
    var clocked: seq<bool>
    var gateHigh: seq<bool>
    var inputs: seq<int>
    var changedCv: seq<bool>

    predicate Valid()
      reads this
    {
      |lastCv| == |gatePrev| == |clocked| == |gateHigh| == |inputs| == |changedCv| == SLOTS
    }

    constructor ()
      ensures Valid() && lastCv == seq(SLOTS, _ => 0) && gatePrev == seq(SLOTS, _ => false)
    {
      lastCv, inputs := seq(SLOTS, _ => 0), seq(SLOTS, _ => 0);
      gatePrev, clocked, gateHigh, changedCv :=
        seq(SLOTS, _ => false), seq(SLOTS, _ => false), seq(SLOTS, _ => false), seq(SLOTS, _ => false);
    }

    /** One gate input. */
    method ScanGate(slot: nat, r: BusReading)
      requires Valid() && slot < SLOTS
      modifies this`gatePrev, this`clocked, this`gateHigh
      ensures Valid()
      ensures var (rising, level) := GateResult(r, old(gatePrev)[slot]);
        clocked == old(clocked)[slot := rising] && gateHigh == old(gateHigh)[slot := level] && gatePrev == old(gatePrev)[slot := level]
    {
      hide HasEdge;
      var rising, high, prev := ReadGate(r, gatePrev[slot]);
      gatePrev := gatePrev[slot := prev];
      clocked := clocked[slot := rising];
      gateHigh := gateHigh[slot := high];
    }

    /** One voltage input. */
    method ScanCv(slot: nat, r: BusReading)
      requires Valid() && slot < SLOTS
      modifies this`inputs, this`changedCv, this`lastCv
      ensures Valid()
      ensures inputs == old(inputs)[slot := Voltage(r)]
      ensures inputs[slot] == if r.connected then r.cv else 0
      ensures changedCv == old(changedCv)[slot := Changed(old(lastCv)[slot], Voltage(r))]
      ensures lastCv == old(lastCv)[slot := NextLast(old(lastCv)[slot], Voltage(r))]
    {
      inputs := inputs[slot := if r.connected then r.cv else 0];
      var delta := inputs[slot] - lastCv[slot];
      if delta < 0 {
        delta := -delta;
      }
      changedCv := changedCv[slot := delta > 32];
      if changedCv[slot] {
        lastCv := lastCv[slot := inputs[slot]];
      }
    }

    /** `populate_frame_from_bus`: the k-th gate and the k-th voltage input land in slot k of their arrays, and the
        slots no input has keep what they held. */
    method Populate(manifest: seq<Kind>, bus: seq<BusReading>)
      requires Valid() && HasRoom(manifest) && |bus| == |manifest|
      modifies this
      ensures Valid()
      ensures forall i :: 0 <= i < |manifest| ==>
        InputDone(manifest, bus, i, old(gatePrev), old(lastCv), clocked, gateHigh, gatePrev, inputs, changedCv, lastCv)
      ensures var g := Gates(manifest, |manifest|);
        && (forall k :: g <= k < SLOTS ==> gatePrev[k] == old(gatePrev)[k])
        && (forall k :: |manifest| - g <= k < SLOTS ==> lastCv[k] == old(lastCv)[k])
    {
      hide HasEdge, Changed, LastLevel, InputDone;
      var gateCh, cvCh := 0, 0;
      for i := 0 to |manifest|
        invariant Valid() && gateCh == Gates(manifest, i) && gateCh + cvCh == i
        invariant gateCh <= SLOTS && cvCh <= SLOTS
        invariant forall k :: gateCh <= k < SLOTS ==> gatePrev[k] == old(gatePrev)[k]
        invariant forall k :: cvCh <= k < SLOTS ==> lastCv[k] == old(lastCv)[k]
        invariant forall j :: 0 <= j < i ==>
          InputDone(manifest, bus, j, old(gatePrev), old(lastCv), clocked, gateHigh, gatePrev, inputs, changedCv, lastCv)
      {
        SlotsFit(manifest, i);
        label Before:
        if manifest[i] == Gate {
          ScanGate(gateCh, bus[i]);
          gateCh := gateCh + 1;
        } else {
          ScanCv(cvCh, bus[i]);
          cvCh := cvCh + 1;
        }
        ScanKeepsOthers(manifest, bus, i, old(gatePrev), old(lastCv),
                        old@Before(clocked), old@Before(gateHigh), old@Before(gatePrev),
                        old@Before(inputs), old@Before(changedCv), old@Before(lastCv),
                        clocked, gateHigh, gatePrev, inputs, changedCv, lastCv);
      }
    }
  }

  /** Rising edge and level of a gate after a step. */
  function GateResult(r: BusReading, before: bool): (bool, bool) {
    (r.connected && HasEdge(before, r.high), r.connected && LastLevel(before, r.high))
  }

  /** What the scan leaves for input i in its slot, from the levels and voltages it started with. */
  ghost predicate InputDone(manifest: seq<Kind>, bus: seq<BusReading>, i: nat, gates: seq<bool>, cvs: seq<int>,
                            clocked: seq<bool>, gateHigh: seq<bool>, gatePrev: seq<bool>,
                            inputs: seq<int>, changedCv: seq<bool>, lastCv: seq<int>)
    requires i < |manifest| == |bus|
    requires |gates| == |cvs| == |clocked| == |gateHigh| == |gatePrev| == |inputs| == |changedCv| == |lastCv| == SLOTS
  {
    var slot := SlotOf(manifest, i);
    && slot < SLOTS
    && if manifest[i] == Gate then
         (clocked[slot], gateHigh[slot]) == GateResult(bus[i], gates[slot]) && gatePrev[slot] == gateHigh[slot]
       else
         && inputs[slot] == Voltage(bus[i])
         && changedCv[slot] == Changed(cvs[slot], inputs[slot])
         && lastCv[slot] == NextLast(cvs[slot], inputs[slot])
  }

  /** Scanning input i fills its slot and leaves the slots of the inputs before it alone. */
  lemma ScanKeepsOthers(manifest: seq<Kind>, bus: seq<BusReading>, i: nat, gates: seq<bool>, cvs: seq<int>,
                        clocked: seq<bool>, gateHigh: seq<bool>, gatePrev: seq<bool>,
                        inputs: seq<int>, changedCv: seq<bool>, lastCv: seq<int>,
                        clocked': seq<bool>, gateHigh': seq<bool>, gatePrev': seq<bool>,
                        inputs': seq<int>, changedCv': seq<bool>, lastCv': seq<int>)
    requires i < |manifest| == |bus| && SlotOf(manifest, i) < SLOTS
    requires |gates| == |cvs| == |clocked| == |gateHigh| == |gatePrev| == |inputs| == |changedCv| == |lastCv| == SLOTS
    requires forall j :: 0 <= j < i ==>
      InputDone(manifest, bus, j, gates, cvs, clocked, gateHigh, gatePrev, inputs, changedCv, lastCv)
    requires gatePrev[SlotOf(manifest, i)] == gates[SlotOf(manifest, i)] || manifest[i] != Gate
    requires lastCv[SlotOf(manifest, i)] == cvs[SlotOf(manifest, i)] || manifest[i] == Gate
    requires var slot := SlotOf(manifest, i);
      if manifest[i] == Gate then
        && inputs' == inputs && changedCv' == changedCv && lastCv' == lastCv
        && var (rising, level) := GateResult(bus[i], gates[slot]);
           clocked' == clocked[slot := rising] && gateHigh' == gateHigh[slot := level] && gatePrev' == gatePrev[slot := level]
      else
        && clocked' == clocked && gateHigh' == gateHigh && gatePrev' == gatePrev
        && inputs' == inputs[slot := Voltage(bus[i])]
        && changedCv' == changedCv[slot := Changed(cvs[slot], Voltage(bus[i]))]
        && lastCv' == lastCv[slot := NextLast(cvs[slot], Voltage(bus[i]))]
    ensures forall j :: 0 <= j < i + 1 ==>
      InputDone(manifest, bus, j, gates, cvs, clocked', gateHigh', gatePrev', inputs', changedCv', lastCv')
  {
    hide HasEdge, LastLevel, Changed;
    forall j | 0 <= j < i
      ensures InputDone(manifest, bus, j, gates, cvs, clocked', gateHigh', gatePrev', inputs', changedCv', lastCv')
    {
      assert InputDone(manifest, bus, j, gates, cvs, clocked, gateHigh, gatePrev, inputs, changedCv, lastCv);
      if manifest[i] == Gate <==> manifest[j] == Gate {
        SlotsAreDistinct(manifest, j, i);
      }
    }
  }

  // ---- A voltage over a run ---------------------------------------------------------------------

  /** The reported value after n samples. */
  function LastAfter(start: int, samples: seq<int>, n: nat): int
    requires n <= |samples|
  {
    if n == 0 then start else NextLast(LastAfter(start, samples, n - 1), samples[n - 1])
  }

  /** Sample k is reported as a change. */
  predicate Reported(start: int, samples: seq<int>, k: nat)
    requires k < |samples|
  {
    Changed(LastAfter(start, samples, k), samples[k])
  }

  /** Between reports the reported value stays. */
  lemma {:induction false} QuietKeepsLast(start: int, samples: seq<int>, j: nat, k: nat)
    requires j <= k <= |samples| && forall i :: j <= i < k ==> !Reported(start, samples, i)
    ensures LastAfter(start, samples, k) == LastAfter(start, samples, j)
    decreases k
  {
    if j < k {
      assert !Reported(start, samples, k - 1);
      QuietKeepsLast(start, samples, j, k - 1);
    }
  }

  /** After every step the input is within the threshold of the reported value. */
  lemma ReportedIsNear(start: int, samples: seq<int>, k: nat)
    requires k < |samples|
    ensures -32 <= samples[k] - LastAfter(start, samples, k + 1) <= 32
    ensures Reported(start, samples, k) ==> LastAfter(start, samples, k + 1) == samples[k]
  {
  }

  /** From one report up to the next, every sample stays within the threshold of the first; the next differs by more. */
  lemma ReportsAreApart(start: int, samples: seq<int>, j: nat, k: nat)
    requires j < k < |samples| && Reported(start, samples, j)
    requires forall i :: j < i < k ==> !Reported(start, samples, i)
    ensures forall i :: j <= i < k ==> -32 <= samples[i] - samples[j] <= 32
    ensures Reported(start, samples, k) <==> !(-32 <= samples[k] - samples[j] <= 32)
  {
    forall i | j < i <= k ensures LastAfter(start, samples, i) == samples[j] {
      QuietKeepsLast(start, samples, j + 1, i);
    }
    forall i | j < i < k ensures Distance(samples[i], samples[j]) <= THRESHOLD {
      assert !Reported(start, samples, i);
    }
  }

  // ---- A gate over a run ------------------------------------------------------------------------

  function Stream(blocks: seq<seq<bool>>): seq<bool> {
    if blocks == [] then [] else Stream(blocks[..|blocks| - 1]) + blocks[|blocks| - 1]
  }

  /** The level carried into block n of a connected gate. */
  function LevelBefore(prev: bool, blocks: seq<seq<bool>>, n: nat): bool
    requires n <= |blocks|
  {
    if n == 0 then prev else LastLevel(LevelBefore(prev, blocks, n - 1), blocks[n - 1])
  }

  lemma {:induction false} LevelIsLastSample(prev: bool, blocks: seq<seq<bool>>, n: nat)
    requires n <= |blocks|
    ensures LevelBefore(prev, blocks, n) == LastLevel(prev, Stream(blocks[..n]))
    decreases n
  {
    if n > 0 {
      LevelIsLastSample(prev, blocks, n - 1);
      assert blocks[..n][..n - 1] == blocks[..n - 1];
    }
  }

  /** A step reports an edge exactly when the unbroken sample stream has one among the step's samples: edges at block
      boundaries are neither lost nor seen twice. */
  lemma EdgesIgnoreBlocks(prev: bool, blocks: seq<seq<bool>>, n: nat)
    requires n < |blocks|
    ensures var front, all := Stream(blocks[..n]), Stream(blocks[..n]) + blocks[n];
      && Stream(blocks[..n + 1]) == all
      && (HasEdge(LevelBefore(prev, blocks, n), blocks[n]) <==>
          exists k :: |front| <= k < |all| && EdgeAt(prev, all, k))
  {
    var front := Stream(blocks[..n]);
    var all := front + blocks[n];
    assert blocks[..n + 1][..n] == blocks[..n];
    LevelIsLastSample(prev, blocks, n);
    var level := LevelBefore(prev, blocks, n);
    assert forall j :: 0 <= j < |blocks[n]| ==> EdgeAt(level, blocks[n], j) == EdgeAt(prev, all, |front| + j);
    if k :| |front| <= k < |all| && EdgeAt(prev, all, k) {
      assert EdgeAt(level, blocks[n], k - |front|);
    }
  }

  // ---- The scanner over a run -------------------------------------------------------------------

  /** Readings of every input at every step. */
  predicate Readings(manifest: seq<Kind>, steps: seq<seq<BusReading>>) {
    forall k :: 0 <= k < |steps| ==> |steps[k]| == |manifest|
  }

  /** The voltages of input i. */
  function Voltages(manifest: seq<Kind>, steps: seq<seq<BusReading>>, i: nat): (r: seq<int>)
    requires Readings(manifest, steps) && i < |manifest|
    ensures |r| == |steps|
  {
    seq(|steps|, k requires 0 <= k < |steps| => Voltage(steps[k][i]))
  }

  /** What a gate sees in a step: its samples, or one low sample where no bus is selected. */
  function Block(r: BusReading): seq<bool> {
    if r.connected then r.high else [false]
  }

  function Blocks(manifest: seq<Kind>, steps: seq<seq<BusReading>>, i: nat): (r: seq<seq<bool>>)
    requires Readings(manifest, steps) && i < |manifest|
    ensures |r| == |steps|
  {
    seq(|steps|, k requires 0 <= k < |steps| => Block(steps[k][i]))
  }

  /** An unconnected gate is a low sample. */
  lemma GateSeesBlock(r: BusReading, before: bool)
    ensures GateResult(r, before) == (HasEdge(before, Block(r)), LastLevel(before, Block(r)))
  {
    if !r.connected {
      assert forall k :: 0 <= k < |[false]| ==> !EdgeAt(before, [false], k);
    }
  }

  /** Block n of a sample stream that starts low has a rising edge, seen in the unbroken stream. */
  predicate EdgeIn(blocks: seq<seq<bool>>, n: nat)
    requires n < |blocks|
  {
    var front, all := Stream(blocks[..n]), Stream(blocks[..n]) + blocks[n];
    exists k :: |front| <= k < |all| && EdgeAt(false, all, k)
  }

  /** What one step has reported, per slot. */
  datatype Reports = Reports(clocked: seq<bool>, gateHigh: seq<bool>, inputs: seq<int>, changedCv: seq<bool>)

  /** The reports of step k for input i are those of its stream of samples, or of its voltages. */
  ghost predicate ReportFits(manifest: seq<Kind>, steps: seq<seq<BusReading>>, i: nat, k: nat, r: Reports)
    requires Readings(manifest, steps) && i < |manifest| && k < |steps|
  {
    var slot := SlotOf(manifest, i);
    && slot < SLOTS == |r.clocked| == |r.gateHigh| == |r.inputs| == |r.changedCv|
    && if manifest[i] == Gate then
         && r.clocked[slot] == EdgeIn(Blocks(manifest, steps, i), k)
         && r.gateHigh[slot] == LastLevel(false, Stream(Blocks(manifest, steps, i)[..k + 1]))
       else
         && r.inputs[slot] == (if steps[k][i].connected then steps[k][i].cv else 0)
         && r.changedCv[slot] == Reported(0, Voltages(manifest, steps, i), k)
  }

  /** The history of input i after n steps. */
  ghost predicate HistoryFits(manifest: seq<Kind>, steps: seq<seq<BusReading>>, i: nat, n: nat, gatePrev: seq<bool>, lastCv: seq<int>)
    requires Readings(manifest, steps) && i < |manifest| && n <= |steps|
  {
    var slot := SlotOf(manifest, i);
    && slot < SLOTS == |gatePrev| == |lastCv|
    && if manifest[i] == Gate then gatePrev[slot] == LastLevel(false, Stream(Blocks(manifest, steps, i)[..n]))
       else lastCv[slot] == LastAfter(0, Voltages(manifest, steps, i), n)
  }

  /** Scans step after step. Every gate reports in each step exactly the edges of its unbroken sample stream, every voltage
      exactly the changes of its own sequence, and the last reported value of each is kept in its slot. */
  method ScanSteps(manifest: seq<Kind>, steps: seq<seq<BusReading>>) returns (scanner: Scanner, reports: seq<Reports>)
    requires HasRoom(manifest) && Readings(manifest, steps)
    ensures fresh(scanner) && scanner.Valid() && |reports| == |steps|
    ensures forall i, k :: 0 <= i < |manifest| && 0 <= k < |steps| ==> ReportFits(manifest, steps, i, k, reports[k])
    ensures forall i :: 0 <= i < |manifest| ==> HistoryFits(manifest, steps, i, |steps|, scanner.gatePrev, scanner.lastCv)
  {
    hide ReportFits, HistoryFits, InputDone, SlotOf;
    scanner := new Scanner();
    reports := [];
    NoHistory(manifest, steps, scanner.gatePrev, scanner.lastCv);
    var n: nat := 0;
    while n < |steps|
      invariant n <= |steps| && fresh(scanner) && scanner.Valid() && |reports| == n
      invariant forall i, k :: 0 <= i < |manifest| && 0 <= k < n ==> ReportFits(manifest, steps, i, k, reports[k])
      invariant forall i :: 0 <= i < |manifest| ==> HistoryFits(manifest, steps, i, n, scanner.gatePrev, scanner.lastCv)
    {
      ghost var gates, cvs, before := scanner.gatePrev, scanner.lastCv, n;
      scanner.Populate(manifest, steps[n]);
      reports := reports + [Reports(scanner.clocked, scanner.gateHigh, scanner.inputs, scanner.changedCv)];
      n := n + 1;
      forall i | 0 <= i < |manifest|
        ensures HistoryFits(manifest, steps, i, n, scanner.gatePrev, scanner.lastCv)
        ensures ReportFits(manifest, steps, i, before, reports[before])
      {
        StepFits(manifest, steps, i, before, gates, cvs, scanner.clocked, scanner.gateHigh, scanner.gatePrev,
                 scanner.inputs, scanner.changedCv, scanner.lastCv);
      }
    }
  }

  lemma NoHistory(manifest: seq<Kind>, steps: seq<seq<BusReading>>, gates: seq<bool>, cvs: seq<int>)
    requires HasRoom(manifest) && Readings(manifest, steps)
    requires gates == seq(SLOTS, _ => false) && cvs == seq(SLOTS, _ => 0)
    ensures forall i :: 0 <= i < |manifest| ==> HistoryFits(manifest, steps, i, 0, gates, cvs)
  {
    forall i | 0 <= i < |manifest| ensures HistoryFits(manifest, steps, i, 0, gates, cvs) {
      SlotsFit(manifest, i);
      assert Blocks(manifest, steps, i)[..0] == [];
    }
  }

  lemma StepFits(manifest: seq<Kind>, steps: seq<seq<BusReading>>, i: nat, n: nat, gates: seq<bool>, cvs: seq<int>,
                 clocked: seq<bool>, gateHigh: seq<bool>, gatePrev: seq<bool>, inputs: seq<int>, changedCv: seq<bool>, lastCv: seq<int>)
    requires Readings(manifest, steps) && i < |manifest| && n < |steps|
    requires |gates| == |cvs| == |clocked| == |gateHigh| == |gatePrev| == |inputs| == |changedCv| == |lastCv| == SLOTS
    requires HistoryFits(manifest, steps, i, n, gates, cvs)
    requires InputDone(manifest, steps[n], i, gates, cvs, clocked, gateHigh, gatePrev, inputs, changedCv, lastCv)
    ensures ReportFits(manifest, steps, i, n, Reports(clocked, gateHigh, inputs, changedCv))
    ensures HistoryFits(manifest, steps, i, n + 1, gatePrev, lastCv)
  {
    hide SlotOf, HasEdge, LastLevel, Changed, GateResult, Stream;
    if manifest[i] == Gate {
      var blocks := Blocks(manifest, steps, i);
      GateSeesBlock(steps[n][i], gates[SlotOf(manifest, i)]);
      EdgesIgnoreBlocks(false, blocks, n);
      LevelIsLastSample(false, blocks, n);
      LevelIsLastSample(false, blocks, n + 1);
    }
  }
}
