/** The once-only initialisation of the NDK compatibility layer (ndk_compat/cpu-features.c):
    callers may force the CPU description, but only before anyone has asked for it.
  */
module Ndk {
  import opened LineReader
  import CpuList

  /** What probing the hardware reports: feature bits, CPU count (0 if unknown) and ARM id. */
  datatype Probe = Probe(features: bv64, count: nat, armId: bv32)

  /** The library's globals; once is set by the first pthread_once. */
  datatype Globals = Globals(once: bool, inited: bool, features: bv64, count: int, armId: bv32)

  const START := Globals(false, false, 0, 0, 0)

  datatype Call =
    | GetFeatures
    | GetCount
    | GetArmId
    | SetCpu(count: int, features: bv64)
    | SetCpuArm(count: int, features: bv64, armId: bv32)
  {
    predicate IsGet() {
      GetFeatures? || GetCount? || GetArmId?
    }
  }

  datatype Answer = Features(features: bv64) | Count(count: int) | ArmId(armId: bv32) | Success(ok: bool)

  /** The feature bits and the ARM id that the probing derives. */
  datatype Hardware = Hardware(features: bv64, armId: bv32)

  class Library {
    const hardware: Hardware
    const present: File?
    const possible: File?
    const capacity: nat
    var once: bool
    var inited: bool
    var features: bv64
    var count: int
    var armId: bv32

    /** A CPU-list file is read greedily, and only by the initialisation. */
    ghost predicate Ready(file: File?)
      reads this, file
    {
      file != null ==> file.Valid() && file.greedy && (!once ==> file.pos == 0)
    }

    ghost predicate Valid()
      reads this, present, possible
    {
      Ready(present) && Ready(possible) && capacity > 0 && (present != null ==> present != possible)
    }

    ghost function State(): Globals
      reads this
    {
      Globals(once, inited, features, count, armId)
    }

    /** The count is that of the CPUs below 32 which either file lists. */
    function Probed(): Probe {
      Probe(hardware.features,
            |CpuList.FileCpusOrNone(present, capacity) + CpuList.FileCpusOrNone(possible, capacity)|,
            hardware.armId)
    }

    constructor (hardware: Hardware, present: File?, possible: File?, capacity: nat)
      requires present != null ==> present.Valid() && present.greedy && present.pos == 0
      requires possible != null ==> possible.Valid() && possible.greedy && possible.pos == 0
      requires capacity > 0 && (present != null ==> present != possible)
      ensures Valid() && State() == START && this.hardware == hardware
      ensures this.present == present && this.possible == possible && this.capacity == capacity
    {
      this.hardware, this.present, this.possible, this.capacity := hardware, present, possible, capacity;
      once, inited, features, count, armId := false, false, 0, 0, 0;
    }

    /** Runs inside pthread_once, which is marked when it returns. */
    method CpuInit()
      requires Valid() && !once
      modifies this, present, possible
      ensures State() == Globals(false, true, Probed().features, AtLeastOne(Probed().count), Probed().armId)
      ensures (present != null ==> present.Valid()) && (possible != null ==> possible.Valid())
    {
      features := 0;
      count := 1;
      inited := true;
      var n, _, _, _ := CpuList.GetCpuCount(present, possible, capacity);
      count := n;
      if count == 0 {
        count := 1;
      }
      features := hardware.features;
      armId := hardware.armId;
    }

    method Once()
      requires Valid()
      modifies this, present, possible
      ensures Valid()
      ensures State() == Initialised(old(State()), Probed())
    {
      if !once {
        CpuInit();
        once := true;
      }
    }

    method GetCpuFeatures() returns (r: bv64)
      requires Valid()
      modifies this, present, possible
      ensures Valid()
      ensures (State(), Features(r)) == Next(old(State()), Probed(), GetFeatures)
    {
      Once();
      r := features;
    }

    method GetCpuCount() returns (r: int)
      requires Valid()
      modifies this, present, possible
      ensures Valid()
      ensures (State(), Count(r)) == Next(old(State()), Probed(), GetCount)
    {
      Once();
      r := count;
    }

    method GetCpuIdArm() returns (r: bv32)
      requires Valid()
      modifies this, present, possible
      ensures Valid()
      ensures (State(), ArmId(r)) == Next(old(State()), Probed(), GetArmId)
    {
      Once();
      r := armId;
    }

    method SetCpu(cpuCount: int, cpuFeatures: bv64) returns (ok: bool)
      requires Valid()
      modifies this, present, possible
      ensures Valid()
      ensures (State(), Success(ok)) == Next(old(State()), Probed(), Call.SetCpu(cpuCount, cpuFeatures))
    {
      if inited {
        return false;
      }
      count := if cpuCount <= 0 then 1 else cpuCount;
      features := cpuFeatures;
      if !once {
        once := true;
        inited := true;
      }
      return true;
    }

    method SetCpuArm(cpuCount: int, cpuFeatures: bv64, cpuId: bv32) returns (ok: bool)
      requires Valid()
      modifies this, present, possible
      ensures Valid()
      ensures (State(), Success(ok)) == Next(old(State()), Probed(), Call.SetCpuArm(cpuCount, cpuFeatures, cpuId))
    {
      ok := SetCpu(cpuCount, cpuFeatures);
      if ok {
        armId := cpuId;
      }
    }
  }

  function AtLeastOne(count: int): int {
    if count <= 0 then 1 else count
  }

  function Initialised(g: Globals, probe: Probe): Globals {
    if g.once then g else Globals(true, true, probe.features, AtLeastOne(probe.count), probe.armId)
  }

  /** The state after a call, and its answer. */
  function Next(g: Globals, probe: Probe, call: Call): (Globals, Answer) {
    match call
    case GetFeatures => (Initialised(g, probe), Features(Initialised(g, probe).features))
    case GetCount => (Initialised(g, probe), Count(Initialised(g, probe).count))
    case GetArmId => (Initialised(g, probe), ArmId(Initialised(g, probe).armId))
    case SetCpu(count, features) =>
      if g.inited then (g, Success(false)) else (Forced(g, count, features), Success(true))
    case SetCpuArm(count, features, armId) =>
      if g.inited then (g, Success(false)) else (Forced(g, count, features).(armId := armId), Success(true))
  }

  function Forced(g: Globals, count: int, features: bv64): Globals {
    Globals(true, g.inited || !g.once, features, AtLeastOne(count), g.armId)
  }

  /** The state before call i of a run that starts with the library. */
  function Before(probe: Probe, calls: seq<Call>, i: nat): (g: Globals)
    requires i <= |calls|
    ensures g.once == g.inited == (i > 0)
  {
    if i == 0 then START else Next(Before(probe, calls, i - 1), probe, calls[i - 1]).0
  }

  function AnswerOf(probe: Probe, calls: seq<Call>, i: nat): Answer
    requires i < |calls|
  {
    Next(Before(probe, calls, i), probe, calls[i]).1
  }

  /** After the first call, whatever it is, nothing changes any more. */
  lemma {:induction false} Settled(probe: Probe, calls: seq<Call>, i: nat)
    requires 0 < i <= |calls|
    ensures Before(probe, calls, i) == Before(probe, calls, 1)
  {
    if i > 1 {
      Settled(probe, calls, i - 1);
    }
  }

  /** A set succeeds exactly when it is the first call of the run: at most once, and never after a
      get. */
  lemma SetSucceedsIffFirst(probe: Probe, calls: seq<Call>, i: nat)
    requires i < |calls| && !calls[i].IsGet()
    ensures AnswerOf(probe, calls, i) == Success(i == 0)
  {
  }

  /** The same getter gives the same answer throughout a run. */
  lemma GettersAreStable(probe: Probe, calls: seq<Call>, i: nat, j: nat)
    requires i < |calls| && j < |calls| && calls[i] == calls[j] && calls[i].IsGet()
    ensures AnswerOf(probe, calls, i) == AnswerOf(probe, calls, j)
  {
    if i > 0 {
      Settled(probe, calls, i);
    }
    if j > 0 {
      Settled(probe, calls, j);
    }
    if i == 0 || j == 0 {
      assert calls[0] == calls[i];
      assert Initialised(Before(probe, calls, 1), probe) == Before(probe, calls, 1);
    }
  }

  /** What a run describes: the values forced by its first call, or else the probed ones. */
  function Described(probe: Probe, first: Call): Probe
  {
    match first
    case SetCpu(count, features) => Probe(features, AtLeastOne(count), 0)
    case SetCpuArm(count, features, armId) => Probe(features, AtLeastOne(count), armId)
    case _ => Probe(probe.features, AtLeastOne(probe.count), probe.armId)
  }

  /** Every getter of every run answers from the description fixed by the first call. */
  lemma GettersAnswer(probe: Probe, calls: seq<Call>, i: nat)
    requires i < |calls| && calls[i].IsGet()
    ensures var d := Described(probe, calls[0]);
            AnswerOf(probe, calls, i) ==
            match calls[i]
            case GetFeatures => Features(d.features)
            case GetCount => Count(d.count)
            case _ => ArmId(d.armId)
  {
    if i > 0 {
      Settled(probe, calls, i);
      assert Before(probe, calls, 1) == Next(START, probe, calls[0]).0;
    }
  }

  /** When a getter comes first, the getters return the probed features and id, and max(1, count). */
  lemma ProbedValuesAnswer(probe: Probe, calls: seq<Call>, i: nat)
    requires i < |calls| && calls[i].IsGet() && calls[0].IsGet()
    ensures calls[i].GetFeatures? ==> AnswerOf(probe, calls, i) == Features(probe.features)
    ensures calls[i].GetCount? ==> AnswerOf(probe, calls, i) == Count(if probe.count > 1 then probe.count else 1)
    ensures calls[i].GetArmId? ==> AnswerOf(probe, calls, i) == ArmId(probe.armId)
  {
    GettersAnswer(probe, calls, i);
  }

  /** After a successful set the getters return the forced features and max(1, count). */
  lemma ForcedValuesStick(probe: Probe, calls: seq<Call>, i: nat)
    requires 0 < i < |calls| && calls[i].IsGet() && !calls[0].IsGet()
    ensures AnswerOf(probe, calls, 0) == Success(true)
    ensures calls[i].GetFeatures? ==> AnswerOf(probe, calls, i) == Features(calls[0].features)
    ensures calls[i].GetCount? ==>
              AnswerOf(probe, calls, i) == Count(if calls[0].count > 1 then calls[0].count else 1)
    ensures calls[i].GetArmId? ==>
              AnswerOf(probe, calls, i) == ArmId(if calls[0].SetCpuArm? then calls[0].armId else 0)
  {
    GettersAnswer(probe, calls, i);
  }
}
