/** No erased handler is called: every bit of the batch belongs to a live registration. */
module LoopSafety {
  import opened Registration
  import opened LoopSystem

  function HandlersAt(r: Registry, a: Addr): set<Dir> {
    if a in r.nodes then r.nodes[a].handlers.Keys else {}
  }

  /** Slots name different nodes, so a live address occurs at most once, and at most one is the stop entry. */
  ghost predicate Distinct(slots: seq<Slot>) {
    forall i, j :: 0 <= i < j < |slots| ==>
      !(slots[i].StopSlot? && slots[j].StopSlot?) &&
      !(slots[i].Ready? && slots[j].Ready? && slots[i].ptr == slots[j].ptr)
  }

  ghost predicate BitsLive(r: Registry, slots: seq<Slot>) {
    forall i :: 0 <= i < |slots| && slots[i].Ready? ==> slots[i].bits <= HandlersAt(r, slots[i].ptr)
  }

  /** The program counter is inside the batch, and a callback whose bit is set is the registered one. */
  ghost predicate PcOk(r: Registry, slots: seq<Slot>, pc: Pc) {
    && (Active(pc) ==> pc.n <= |slots|)
    && (Active(pc) && (pc.Calling? || pc.d == Out) ==> pc.n < |slots| && slots[pc.n].Ready?)
    && (pc.Calling? && BitSet(slots, pc.n, pc.d) ==>
          slots[pc.n].ptr in r.nodes && r.nodes[slots[pc.n].ptr].fd == pc.fd)
  }

  ghost predicate Safe(s: State) {
    && Valid(s.reg)
    && |s.slots| <= MAXEVENTS
    && Distinct(s.slots)
    && BitsLive(s.reg, s.slots)
    && PcOk(s.reg, s.slots, s.pc)
  }

  /**
   The early break of the masking loops is justified: when slot k carries the address, masking it
   alone is masking every slot.
   */
  lemma MaskOnce(slots: seq<Slot>, k: nat, ptr: Addr, removed: set<Dir>)
    requires Distinct(slots) && k < |slots| && slots[k].Ready? && slots[k].ptr == ptr
    ensures Mask(slots, ptr, removed) == slots[k := Ready(ptr, slots[k].bits - removed)]
  {
    forall i | 0 <= i < |slots|
      ensures Mask(slots, ptr, removed)[i] == slots[k := Ready(ptr, slots[k].bits - removed)][i]
    {
      assert i < k || i == k || k < i;
    }
  }

  lemma NewBatchSafe(s: State, report: seq<Report>)
    requires Safe(s) && LegalReport(s, report)
    ensures Safe(NewBatch(s, report))
  {
    var slots := NewBatch(s, report).slots;
    forall i, j | 0 <= i < j < |slots|
      ensures !(slots[i].StopSlot? && slots[j].StopSlot?)
      ensures !(slots[i].Ready? && slots[j].Ready? && slots[i].ptr == slots[j].ptr)
    {
      assert LegalEntry(s, report[i]) && LegalEntry(s, report[j]) && !SameSource(report[i], report[j]);
    }
    forall i | 0 <= i < |slots| && slots[i].Ready?
      ensures slots[i].bits <= HandlersAt(s.reg, slots[i].ptr)
    {
      assert LegalEntry(s, report[i]);
    }
  }

  lemma AddSafe(s: State, fd: Fd, d: Dir, h: Handler, spare: Addr, granted: bool, id: nat)
    requires Safe(s) && Enabled(s, AddHandler(fd, d, h, spare, granted, id))
    ensures Safe(Added(s, fd, d, h, spare, granted, id))
  {
    AddKeepsValid(s.reg, fd, d, h, spare, granted);
    AddFrame(s.reg, fd, d, h, spare, granted);
  }

  lemma EraseSafe(s: State, fd: Fd, d: Dir)
    requires Safe(s) && Has(s.reg, fd, d)
    ensures Safe(Erased(s, fd, d))
  {
    EraseKeepsValid(s.reg, fd, d);
    EraseFrame(s.reg, fd, d);
    var t := Erased(s, fd, d);
    var e := Erase(s.reg, fd, d);
    forall i | 0 <= i < |t.slots| && t.slots[i].Ready?
      ensures t.slots[i].bits <= HandlersAt(t.reg, t.slots[i].ptr)
    {
      assert s.slots[i].Ready? && s.slots[i].bits <= HandlersAt(s.reg, s.slots[i].ptr);
      forall b | b in t.slots[i].bits ensures b in HandlersAt(t.reg, t.slots[i].ptr) {
        match b case In => case Out =>
      }
    }
  }

  lemma CloseSafe(s: State, fd: Fd)
    requires Safe(s)
    ensures Safe(Closed(s, fd))
  {}

  lemma FinishSafe(s: State, result: int)
    requires Safe(s) && Enabled(s, Finish(result))
    ensures Safe(Finished(s, result))
  {}

  /** Every step keeps the batch safe, whatever the callbacks add, erase or close, with address reuse. */
  lemma StepSafe(s: State, step: Step)
    requires Safe(s) && Enabled(s, step)
    ensures Safe(Apply(s, step))
  {
    match step
    case Wait(report) => NewBatchSafe(s, report);
    case Interrupted => NewBatchSafe(s, []);
    case Finish(result) => FinishSafe(s, result);
    case AddHandler(fd, d, h, spare, granted, id) => AddSafe(s, fd, d, h, spare, granted, id);
    case EraseHandler(fd, d) => EraseSafe(s, fd, d);
    case Close(fd) => CloseSafe(s, fd);
    case _ =>
  }

  lemma {:induction false} RunSafe(steps: seq<Step>)
    requires RunOk(INIT, steps)
    ensures Safe(After(INIT, steps))
    decreases |steps|
  {
    if steps != [] {
      var k := |steps| - 1;
      RunSafe(steps[..k]);
      StepSafe(After(INIT, steps[..k]), steps[k]);
    }
  }

  /**
   Safe dispatch over every run: whenever the dispatcher finds a bit set, the slot's address is a live
   node and the handler of that direction is not null; and no two slots share an address.
   */
  lemma SafeDispatch(steps: seq<Step>)
    requires RunOk(INIT, steps)
    ensures var s := After(INIT, steps);
      && (forall i, d :: BitSet(s.slots, i, d) ==>
            s.slots[i].ptr in s.reg.nodes && d in s.reg.nodes[s.slots[i].ptr].handlers)
      && (forall i, j :: 0 <= i < j < |s.slots| && s.slots[i].Ready? && s.slots[j].Ready? ==>
            s.slots[i].ptr != s.slots[j].ptr)
      && (s.pc.At? && BitSet(s.slots, s.pc.n, s.pc.d) ==> Enabled(s, Call))
  {
    RunSafe(steps);
    var s := After(INIT, steps);
    forall i, d | BitSet(s.slots, i, d)
      ensures s.slots[i].ptr in s.reg.nodes && d in s.reg.nodes[s.slots[i].ptr].handlers
    {
      assert s.slots[i].bits <= HandlersAt(s.reg, s.slots[i].ptr);
    }
  }
}
