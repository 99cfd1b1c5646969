/** The step loop of the harness: every step renders one block of all buses, and the blocks are laid one behind the
    other into a single bus-major record. */
module BusRecord {
  import opened Chars

  const NUM_BUSES := 64
  const BLOCK := 32

  /** Integer division of C, which drops the fraction. */
  function Quotient(a: int, b: int): int
    requires b > 0
  {
    if a >= 0 then a / b else -(-a / b)
  }

  function TotalSteps(duration: int): int {
    Quotient(duration + BLOCK - 1, BLOCK)
  }

  /** Steps are rounded up: they cover the duration with less than a block to spare. Only a duration below -62 gives a
      negative number of steps, for which no record can be allocated. */
  lemma StepsCoverDuration(duration: int)
    ensures TotalSteps(duration) < 0 <==> duration <= -63
    ensures duration > 0 ==> duration <= TotalSteps(duration) * BLOCK < duration + BLOCK
    ensures -63 < duration <= 0 ==> TotalSteps(duration) == 0
  {
  }

  /** Where the samples of a bus begin in a record of so many frames. */
  function Start(total: nat, bus: nat): nat {
    bus * total
  }

  /** The samples of one bus in a record. */
  function Channel<T>(record: seq<T>, total: nat, bus: nat): (r: seq<T>)
    requires |record| == NUM_BUSES * total && bus < NUM_BUSES
    ensures |r| == total
  {
    BusFits(total, bus);
    record[Start(total, bus)..Start(total, bus) + total]
  }

  lemma BusFits(total: nat, bus: nat)
    requires bus < NUM_BUSES
    ensures Start(total, bus) + total <= NUM_BUSES * total
  {
    assert bus * total + total == (bus + 1) * total <= NUM_BUSES * total;
  }

  /** The samples a bus gets from the first so many blocks. */
  function Rendered<T>(block: nat -> seq<T>, bus: nat, steps: nat): (r: seq<T>)
    requires bus < NUM_BUSES && forall s :: |block(s)| == NUM_BUSES * BLOCK
    ensures |r| == steps * BLOCK
  {
    if steps == 0 then [] else Rendered(block, bus, steps - 1) + Channel(block(steps - 1), BLOCK, bus)
  }

  lemma {:induction false} RenderedAt<T>(block: nat -> seq<T>, bus: nat, steps: nat, s: nat, k: nat)
    requires bus < NUM_BUSES && (forall s :: |block(s)| == NUM_BUSES * BLOCK) && s < steps && k < BLOCK
    ensures Rendered(block, bus, steps)[s * BLOCK + k] == block(s)[bus * BLOCK + k]
    decreases steps
  {
    if s < steps - 1 {
      RenderedAt(block, bus, steps - 1, s, k);
    } else {
      BusFits(BLOCK, bus);
      assert Channel(block(s), BLOCK, bus)[k] == block(s)[bus * BLOCK + k];
    }
  }

  /** In a record whose buses hold their blocks end to end, sample k that step s rendered for a bus is frame 32 s + k of that
      bus. */
  lemma RecordAt<T>(record: seq<T>, total: nat, block: nat -> seq<T>, steps: nat, bus: nat, s: nat, k: nat)
    requires |record| == NUM_BUSES * total && total == steps * BLOCK && bus < NUM_BUSES && s < steps && k < BLOCK
    requires forall s :: |block(s)| == NUM_BUSES * BLOCK
    requires Channel(record, total, bus) == Rendered(block, bus, steps)
    ensures bus * total + s * 32 + k < |record|
    ensures record[bus * total + s * 32 + k] == block(s)[bus * 32 + k]
  {
    BusFits(total, bus);
    RenderedAt(block, bus, steps, s, k);
    assert Channel(record, total, bus)[s * BLOCK + k] == record[bus * total + (s * BLOCK + k)];
  }

  /** The `memcpy` of one bus of one block. */
  method CopyBus<T>(record: array<T>, total: nat, start: nat, samples: seq<T>, bus: nat)
    requires record.Length == NUM_BUSES * total && bus < NUM_BUSES && |samples| == BLOCK && start + BLOCK <= total
    modifies record
    ensures Channel(record[..], total, bus)
         == old(Channel(record[..], total, bus))[..start] + samples + old(Channel(record[..], total, bus))[start + BLOCK..]
    ensures forall b :: 0 <= b < NUM_BUSES && b != bus ==> Channel(record[..], total, b) == old(Channel(record[..], total, b))
  {
    BusFits(total, bus);
    var dst := Start(total, bus) + start;
    hide Start, Channel;
    ghost var was := record[..];
    for k := 0 to BLOCK
      invariant record[..] == was[..dst] + samples[..k] + was[dst + k..]
    {
      record[dst + k] := samples[k];
    }
    assert samples[..BLOCK] == samples;
    Spliced(was, record[..], total, start, samples, bus);
  }

  /** Overwriting a stretch of one bus leaves every other bus alone. */
  lemma Spliced<T>(was: seq<T>, now: seq<T>, total: nat, start: nat, samples: seq<T>, bus: nat)
    requires |was| == |now| == NUM_BUSES * total && bus < NUM_BUSES && |samples| == BLOCK && start + BLOCK <= total
    requires Start(total, bus) + total <= |was|
    requires now == was[..Start(total, bus) + start] + samples + was[Start(total, bus) + start + BLOCK..]
    ensures Channel(now, total, bus) == Channel(was, total, bus)[..start] + samples + Channel(was, total, bus)[start + BLOCK..]
    ensures forall b :: 0 <= b < NUM_BUSES && b != bus ==> Channel(now, total, b) == Channel(was, total, b)
  {
    hide Channel, Start;
    SplicedStretch(was, now, total, start, samples, Start(total, bus));
    ChannelIs(was, total, bus);
    ChannelIs(now, total, bus);
    forall b | 0 <= b < NUM_BUSES && b != bus ensures Channel(now, total, b) == Channel(was, total, b) {
      ApartFrom(total, bus, b);
      BusFits(total, b);
      ChannelIs(was, total, b);
      ChannelIs(now, total, b);
      SameStretch(was, now, total, start, samples, Start(total, bus), Start(total, b));
    }
  }

  lemma ChannelIs<T>(record: seq<T>, total: nat, bus: nat)
    requires |record| == NUM_BUSES * total && bus < NUM_BUSES && Start(total, bus) + total <= |record|
    ensures Channel(record, total, bus) == record[Start(total, bus)..Start(total, bus) + total]
  {
  }

  lemma SplicedStretch<T>(was: seq<T>, now: seq<T>, total: nat, start: nat, samples: seq<T>, from: nat)
    requires |samples| == BLOCK && start + BLOCK <= total && from + total <= |was|
    requires now == was[..from + start] + samples + was[from + start + BLOCK..]
    ensures now[from..from + total] == was[from..from + total][..start] + samples + was[from..from + total][start + BLOCK..]
  {
    var left, right := was[from..from + total][..start], was[from..from + total][start + BLOCK..];
    assert was[..from + start] == was[..from] + left;
    assert was[from + start + BLOCK..] == right + was[from + total..];
    assert now == was[..from] + (left + samples + right) + was[from + total..];
  }

  lemma SameStretch<T>(was: seq<T>, now: seq<T>, total: nat, start: nat, samples: seq<T>, from: nat, other: nat)
    requires |samples| == BLOCK && start + BLOCK <= total && from + total <= |was| && other + total <= |was|
    requires other + total <= from || from + total <= other
    requires now == was[..from + start] + samples + was[from + start + BLOCK..]
    ensures now[other..other + total] == was[other..other + total]
  {
    if other + total <= from {
      assert was[..from + start][other..other + total] == was[other..other + total];
    } else {
      var behind := was[from + start + BLOCK..];
      assert |was[..from + start] + samples| == from + start + BLOCK;
      forall k | other <= k < other + total ensures now[k] == was[k] {
        assert now[k] == behind[k - (from + start + BLOCK)];
      }
    }
  }

  lemma ApartFrom(total: nat, bus: nat, b: nat)
    requires b != bus
    ensures Start(total, b) + total <= Start(total, bus) || Start(total, bus) + total <= Start(total, b)
  {
    if b < bus {
      assert (b + 1) * total <= bus * total;
    } else {
      assert (bus + 1) * total <= b * total;
    }
  }

  /** The copy loop of one step. */
  method CopyBlock<T>(record: array<T>, total: nat, start: nat, block: seq<T>)
    requires record.Length == NUM_BUSES * total && |block| == NUM_BUSES * BLOCK && start + BLOCK <= total
    modifies record
    ensures forall b :: 0 <= b < NUM_BUSES ==>
      Channel(record[..], total, b)
      == old(Channel(record[..], total, b))[..start] + Channel(block, BLOCK, b) + old(Channel(record[..], total, b))[start + BLOCK..]
  {
    for bus: nat := 0 to NUM_BUSES
      invariant forall b :: bus <= b < NUM_BUSES ==> Channel(record[..], total, b) == old(Channel(record[..], total, b))
      invariant forall b :: 0 <= b < bus ==>
        Channel(record[..], total, b)
        == old(Channel(record[..], total, b))[..start] + Channel(block, BLOCK, b) + old(Channel(record[..], total, b))[start + BLOCK..]
    {
      CopyBus(record, total, start, Channel(block, BLOCK, bus), bus);
    }
  }

  /** The step loop; `block(s)` is what step s renders. Every bus of the record holds its blocks end to end. */
  method RunSteps<T>(duration: int, zero: T, block: nat -> seq<T>) returns (record: Option<array<T>>, total: int)
    requires forall s :: |block(s)| == NUM_BUSES * BLOCK
    ensures record.None? <==> duration <= -63
    ensures total == TotalSteps(duration) * BLOCK
    ensures record.Some? ==>
      && total >= 0 && record.value.Length == 64 * total
      && forall b :: 0 <= b < NUM_BUSES ==> Channel(record.value[..], total, b) == Rendered(block, b, TotalSteps(duration))
  {
    StepsCoverDuration(duration);
    var steps := TotalSteps(duration);
    total := steps * BLOCK;
    if steps < 0 {
      return None, total;
    }
    var all := new T[NUM_BUSES * total](_ => zero);
    for step: nat := 0 to steps
      invariant forall b :: 0 <= b < NUM_BUSES ==> Channel(all[..], total, b)[..step * BLOCK] == Rendered(block, b, step)
    {
      var start := step * BLOCK;
      assert start + BLOCK <= total;
      CopyBlock(all, total, start, block(step));
    }
    record := Some(all);
  }
}
