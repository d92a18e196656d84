/**
 * The reset-survival test of src/main.c: on every boot the application
 * classifies the restart from the raw GRTC reading, counts counter-persisted
 * restarts in the retained record, and, while the reboot budget lasts, arms a
 * delayed reboot whose handler bumps the boot count, persists the record and
 * only then reboots.
 *
 * One boot is the class BootSession: its fields are the retained record, an
 * event trace of everything the boot did to the record, and the state of the
 * delayed reboot. `retained_validate()` and `retained_update()` live in
 * retained.c, which is not part of this model: the verdict of the former is a
 * parameter, and the fields the latter recomputes (the uptime counters and
 * the CRC) are parameters of type StoreWrite; the latter never touches
 * `boots` or `off_count`. A run of several boots is the function RunBoots,
 * and the method RunRebootTest, which drives BootSession, is proved to
 * compute it.
 */
module ResetSurvival {
  import opened CInt
  import opened Wrappers

  /** MAX_REBOOTS: the number of automatic resets the test performs. */
  const MAX_REBOOTS: nat := 3

  /** A raw GRTC reading above this many microseconds means the counter survived the restart. */
  const FRESH_START_LIMIT_US: nat := 1000000

  /** The retained record. */
  datatype Record = Record(boots: u32, offCount: u32, uptimeLatest: u64, uptimeSum: u64, crc: u32)

  /** The fields retained_update() recomputes, with the values that code computes. */
  datatype StoreWrite = StoreWrite(uptimeLatest: u64, uptimeSum: u64, crc: u32)

  /** What a boot does to the record and to the system, in order. */
  datatype Event =
    | Validated(ok: bool)        // retained_validate() returned ok
    | OffCountSet(value: u32)    // retained.off_count++
    | BootsSet(value: u32)       // retained.boots++
    | Persisted(record: Record)  // retained_update() wrote this record
    | RebootArmed                // the delayed reboot was scheduled
    | TestComplete               // the budget is used up: the completion branch ran
    | Rebooted                   // sys_reboot()

  /** An event that changes the retained record. */
  predicate IsRecordWrite(e: Event) {
    e.OffCountSet? || e.BootsSet? || e.Persisted?
  }

  /** The restart classification of main.c: strictly above one second counts as "counter persisted". */
  predicate CounterPersisted(grtcRaw: u64): (persisted: bool)
    ensures grtcRaw <= FRESH_START_LIMIT_US ==> !persisted
    ensures grtcRaw == FRESH_START_LIMIT_US + 1 ==> persisted
  {
    grtcRaw > FRESH_START_LIMIT_US
  }

  /** A later reading than one classified "counter persisted" is classified so too. */
  lemma ClassificationMonotone(earlier: u64, later: u64)
    requires earlier <= later && CounterPersisted(earlier)
    ensures CounterPersisted(later)
  {
  }

  /** The arm decision of main.c. */
  predicate ShouldArm(boots: u32): (arm: bool)
    ensures arm ==> Inc32(boots) == boots + 1 <= MAX_REBOOTS
    ensures !arm ==> boots >= MAX_REBOOTS
  {
    boots < MAX_REBOOTS
  }

  /** retained_update(): the recomputed fields change, the counters are kept. */
  function Persist(r: Record, w: StoreWrite): (r': Record)
    ensures r'.boots == r.boots && r'.offCount == r.offCount
  {
    r.(uptimeLatest := w.uptimeLatest, uptimeSum := w.uptimeSum, crc := w.crc)
  }

  /** The record after main()'s boot path, which writes `off_count` and nothing else. */
  function BootRecord(r: Record, grtcRaw: u64): (r': Record)
    ensures r' == r.(offCount := r'.offCount)
    ensures grtcRaw > FRESH_START_LIMIT_US ==> r'.offCount == Inc32(r.offCount)
    ensures grtcRaw <= FRESH_START_LIMIT_US ==> r' == r
  {
    if CounterPersisted(grtcRaw) then r.(offCount := Inc32(r.offCount)) else r
  }

  /** The record the reboot handler leaves behind (and persists): one more boot, same off_count. */
  function HandlerRecord(r: Record, w: StoreWrite): (r': Record)
    ensures r'.boots == Inc32(r.boots)
    ensures r'.offCount == r.offCount
    ensures r.boots < MAX_REBOOTS ==> r'.boots == r.boots + 1
  {
    Persist(r.(boots := Inc32(r.boots)), w)
  }

  /** The events main()'s boot path emits. */
  function BootEvents(retainedOk: bool, r: Record, grtcRaw: u64): (t: seq<Event>)
    ensures |t| >= 2 && t[0] == Validated(retainedOk)
    ensures RebootArmed in t <==> ShouldArm(r.boots)
    ensures TestComplete in t <==> !ShouldArm(r.boots)
    ensures OffCountSet(Inc32(r.offCount)) in t <==> CounterPersisted(grtcRaw)
    ensures forall e :: e in t && IsRecordWrite(e) ==> e == OffCountSet(Inc32(r.offCount))
  {
    [Validated(retainedOk)]
    + (if CounterPersisted(grtcRaw) then [OffCountSet(Inc32(r.offCount))] else [])
    + (if ShouldArm(r.boots) then [RebootArmed] else [TestComplete])
  }

  /** The events the reboot handler emits. */
  function HandlerEvents(r: Record, w: StoreWrite): (t: seq<Event>)
    ensures RebootSafe(t, HandlerRecord(r, w))
    ensures t[0] == BootsSet(Inc32(r.boots))
  {
    var t := [BootsSet(Inc32(r.boots)), Persisted(HandlerRecord(r, w)), Rebooted];
    assert t[..|t| - 1] == [BootsSet(Inc32(r.boots)), Persisted(HandlerRecord(r, w))];
    t
  }

  /** The last event of t that writes the record, if any. */
  function LastWrite(t: seq<Event>): (e: Option<Event>)
    ensures e.Some? ==> e.value in t && IsRecordWrite(e.value)
    ensures e.Some? ==>
      exists i {:trigger t[i]} :: 0 <= i < |t| && t[i] == e.value && (forall j :: i < j < |t| ==> !IsRecordWrite(t[j]))
    ensures e.None? ==> forall i :: 0 <= i < |t| ==> !IsRecordWrite(t[i])
  {
    if t == [] then None
    else if IsRecordWrite(t[|t| - 1]) then Some(t[|t| - 1])
    else LastWrite(t[..|t| - 1])
  }

  /**
   * The trace ends in a reboot, the record was persisted before it, the last
   * write to the record is that persist, and what it persisted is `final`.
   */
  predicate RebootSafe(t: seq<Event>, final: Record) {
    && |t| >= 2
    && t[|t| - 1] == Rebooted
    && Rebooted !in t[..|t| - 1]
    && LastWrite(t) == Some(Persisted(final))
  }

  /** Whatever happened earlier in the boot, the handler's events make the reboot safe. */
  lemma HandlerMakesRebootSafe(t: seq<Event>, r: Record, w: StoreWrite)
    requires Rebooted !in t
    ensures RebootSafe(t + HandlerEvents(r, w), HandlerRecord(r, w))
  {
  }

  /** The record's validity only selects what main() logs: the boot behaves the same either way. */
  lemma ValidationOnlyLogged(r: Record, grtcRaw: u64)
    ensures BootEvents(true, r, grtcRaw)[1..] == BootEvents(false, r, grtcRaw)[1..]
  {
  }

  /** One boot of the board: main() and, when armed, the delayed reboot handler. */
  class BootSession {
    var retained: Record
    var trace: seq<Event>
    var armed: bool
    var rebooted: bool

    ghost predicate Valid()
      reads this
    {
      && (trace == [] ==> !armed && !rebooted)
      && (rebooted ==> RebootSafe(trace, retained))
      && (!rebooted ==> Rebooted !in trace)
    }

    /** A boot starts on whatever record the retained RAM holds after validation. */
    constructor (record: Record)
      ensures Valid()
      ensures retained == record && trace == [] && !armed && !rebooted
    {
      retained := record;
      trace := [];
      armed := false;
      rebooted := false;
    }

    /**
     * main() up to the start of the status loop: classify the restart from
     * `grtcRaw`, count it in off_count if the counter persisted, and arm the
     * reboot while `boots < MAX_REBOOTS`. `retainedOk` is what
     * retained_validate() returned; it changes nothing but the log.
     */
    method Boot(retainedOk: bool, grtcRaw: u64)
      requires Valid() && trace == []
      modifies this
      ensures Valid() && !rebooted
      ensures retained == BootRecord(old(retained), grtcRaw)
      ensures retained.boots == old(retained.boots)
      ensures armed <==> old(retained.boots) < MAX_REBOOTS
      ensures trace == BootEvents(retainedOk, old(retained), grtcRaw)
    {
      trace := trace + [Validated(retainedOk)];
      if grtcRaw > FRESH_START_LIMIT_US {
        retained := retained.(offCount := Inc32(retained.offCount));
        trace := trace + [OffCountSet(retained.offCount)];
      }
      if retained.boots < MAX_REBOOTS {
        armed := true;
        trace := trace + [RebootArmed];
      } else {
        trace := trace + [TestComplete];
      }
    }

    /** retained_update(): write the record back with the fields retained.c recomputes. */
    method RetainedUpdate(w: StoreWrite)
      requires Valid() && !rebooted
      modifies this
      ensures Valid() && !rebooted && armed == old(armed)
      ensures retained == Persist(old(retained), w)
      ensures trace == old(trace) + [Persisted(retained)]
    {
      retained := Persist(retained, w);
      trace := trace + [Persisted(retained)];
    }

    /**
     * reboot_work_handler: bump boots, persist, then reboot. The GRTC reading
     * it takes is only logged and is left out.
     */
    method RebootHandler(w: StoreWrite)
      requires Valid() && armed && !rebooted
      modifies this
      ensures Valid() && rebooted && armed == old(armed)
      ensures retained == HandlerRecord(old(retained), w)
      ensures trace == old(trace) + HandlerEvents(old(retained), w)
      ensures RebootSafe(trace, retained)
    {
      ghost var before, start := trace, retained;
      retained := retained.(boots := Inc32(retained.boots));
      trace := trace + [BootsSet(retained.boots)];
      RetainedUpdate(w);
      rebooted := true;
      trace := trace + [Rebooted];
      assert trace == before + HandlerEvents(start, w);
      HandlerMakesRebootSafe(before, start, w);
    }

    /**
     * The first |ticks| iterations of main()'s status loop; each one calls
     * retained_update() and nothing else that touches the record.
     */
    method StatusLoop(ticks: seq<StoreWrite>)
      requires Valid() && !rebooted
      modifies this
      ensures Valid() && !rebooted && armed == old(armed)
      ensures retained.boots == old(retained.boots) && retained.offCount == old(retained.offCount)
      ensures retained == if ticks == [] then old(retained) else Persist(old(retained), ticks[|ticks| - 1])
      ensures |trace| == |old(trace)| + |ticks| && trace[..|old(trace)|] == old(trace)
      ensures forall k :: 0 <= k < |ticks| ==> trace[|old(trace)| + k] == Persisted(Persist(old(retained), ticks[k]))
    {
      var i := 0;
      while i < |ticks|
        invariant 0 <= i <= |ticks|
        invariant Valid() && !rebooted && armed == old(armed)
        invariant retained.boots == old(retained.boots) && retained.offCount == old(retained.offCount)
        invariant retained == if i == 0 then old(retained) else Persist(old(retained), ticks[i - 1])
        invariant |trace| == |old(trace)| + i && trace[..|old(trace)|] == old(trace)
        invariant forall k :: 0 <= k < i ==> trace[|old(trace)| + k] == Persisted(Persist(old(retained), ticks[k]))
      {
        RetainedUpdate(ticks[i]);
        i := i + 1;
      }
    }
  }

  /** What the environment supplies to one boot. */
  datatype BootInput = BootInput(retainedOk: bool, grtcAtBoot: u64, atReboot: StoreWrite)

  /** The outcome of a run: the final record, how many reboots the handler issued, and whether the completion branch ran. */
  datatype RunResult = RunResult(record: Record, reboots: nat, completed: bool)

  /**
   * Boots the board once per input, the record surviving each reboot, until
   * a boot no longer arms (the completion branch) or the inputs run out.
   */
  function RunBoots(r: Record, inputs: seq<BootInput>): (res: RunResult)
    ensures res.reboots + (if res.completed then 1 else 0) <= |inputs|
    ensures r.boots <= MAX_REBOOTS ==> res.reboots <= MAX_REBOOTS - r.boots
    ensures res.record.boots == r.boots + res.reboots
    decreases |inputs|
  {
    if inputs == [] then RunResult(r, 0, false)
    else
      var booted := BootRecord(r, inputs[0].grtcAtBoot);
      if ShouldArm(r.boots) then
        var rest := RunBoots(HandlerRecord(booted, inputs[0].atReboot), inputs[1..]);
        rest.(reboots := rest.reboots + 1)
      else RunResult(booted, 0, true)
  }

  /** How many of the readings are classified as "counter persisted". */
  function CountPersisted(inputs: seq<BootInput>): (n: nat)
    ensures n <= |inputs|
  {
    if inputs == [] then 0
    else (if CounterPersisted(inputs[0].grtcAtBoot) then 1 else 0) + CountPersisted(inputs[1..])
  }

  /**
   * From a record with `boots <= MAX_REBOOTS`, given enough boots, the test
   * reboots exactly `MAX_REBOOTS - boots` times, ends with `boots ==
   * MAX_REBOOTS` and stops in the completion branch.
   */
  lemma {:induction false} RunBootsReachesBudget(r: Record, inputs: seq<BootInput>)
    requires r.boots <= MAX_REBOOTS
    requires |inputs| > MAX_REBOOTS - r.boots
    ensures RunBoots(r, inputs).reboots == MAX_REBOOTS - r.boots
    ensures RunBoots(r, inputs).record.boots == MAX_REBOOTS
    ensures RunBoots(r, inputs).completed
    decreases |inputs|
  {
    if r.boots < MAX_REBOOTS {
      var booted := BootRecord(r, inputs[0].grtcAtBoot);
      RunBootsReachesBudget(HandlerRecord(booted, inputs[0].atReboot), inputs[1..]);
    }
  }

  /** With too few boots to use up the budget, every boot reboots and the test is not complete. */
  lemma {:induction false} RunBootsUnfinished(r: Record, inputs: seq<BootInput>)
    requires r.boots + |inputs| <= MAX_REBOOTS
    ensures RunBoots(r, inputs).reboots == |inputs|
    ensures RunBoots(r, inputs).record.boots == r.boots + |inputs|
    ensures !RunBoots(r, inputs).completed
    decreases |inputs|
  {
    if inputs != [] {
      var booted := BootRecord(r, inputs[0].grtcAtBoot);
      RunBootsUnfinished(HandlerRecord(booted, inputs[0].atReboot), inputs[1..]);
    }
  }

  /**
   * The three-cycle test: from `boots == 0`, the boots with boots 0, 1 and 2
   * arm, the fourth boot finds `boots == 3` and does not arm.
   */
  lemma ThreeCycleTest(r: Record, inputs: seq<BootInput>)
    requires r.boots == 0 && |inputs| >= 4
    ensures RunBoots(r, inputs).reboots == 3
    ensures RunBoots(r, inputs).record.boots == 3
    ensures RunBoots(r, inputs).completed
  {
    RunBootsReachesBudget(r, inputs);
  }

  /**
   * off_count counts exactly the boots whose reading showed the counter
   * persisted, among the boots the run used (rebooting ones and the final completing one).
   */
  lemma {:induction false} RunBootsCountsPersisted(r: Record, inputs: seq<BootInput>)
    requires r.offCount + |inputs| < TWO_32
    ensures var res := RunBoots(r, inputs);
      var used := res.reboots + (if res.completed then 1 else 0);
      && used <= |inputs|
      && res.record.offCount == r.offCount + CountPersisted(inputs[..used])
    decreases |inputs|
  {
    if inputs != [] {
      var booted := BootRecord(r, inputs[0].grtcAtBoot);
      var step := if CounterPersisted(inputs[0].grtcAtBoot) then 1 else 0;
      assert booted.offCount == r.offCount + step;
      if ShouldArm(r.boots) {
        var next := HandlerRecord(booted, inputs[0].atReboot);
        RunBootsCountsPersisted(next, inputs[1..]);
        var rest := RunBoots(next, inputs[1..]);
        var used := rest.reboots + (if rest.completed then 1 else 0);
        assert inputs[..used + 1] == [inputs[0]] + inputs[1..][..used];
        assert inputs[..used + 1][1..] == inputs[1..][..used];
      } else {
        assert inputs[..1][1..] == [];
      }
    }
  }

  /**
   * Runs the test on the board: one BootSession per input, each starting on
   * the record the previous one persisted before rebooting.
   */
  method RunRebootTest(start: Record, inputs: seq<BootInput>) returns (res: RunResult)
    ensures res == RunBoots(start, inputs)
  {
    var record := start;
    var reboots := 0;
    var i := 0;
    while i < |inputs|
      invariant 0 <= i <= |inputs|
      invariant RunBoots(start, inputs)
        == RunBoots(record, inputs[i..]).(reboots := RunBoots(record, inputs[i..]).reboots + reboots)
    {
      assert inputs[i..][1..] == inputs[i + 1..];
      var session := new BootSession(record);
      session.Boot(inputs[i].retainedOk, inputs[i].grtcAtBoot);
      if !session.armed {
        return RunResult(session.retained, reboots, true);
      }
      session.RebootHandler(inputs[i].atReboot);
      record := session.retained;
      reboots := reboots + 1;
      i := i + 1;
    }
    res := RunResult(record, reboots, false);
  }
}
