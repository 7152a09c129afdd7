/**
 The motor controller (cmaxonmotor.cpp) as its caller sees it: a position profile that is read back and
 rewritten, and the requests that reach the device, in order.
 */
module Motor {
  import opened Options

  /** `velocity` is `None` when the conversion of the speed to `unsigned int` is undefined. */
  datatype Profile = Profile(velocity: Option<nat>, acceleration: nat, deceleration: nat)

  /** Who asked: a host command, the remote control, or the recovery of a faulted device. */
  datatype Origin = Command | Remote | Service

  datatype Request =
    | Initialise(origin: Origin)
    | SetProfile(origin: Origin, profile: Profile)
    | MoveRelative(origin: Origin, counts: int)
    | Halt(origin: Origin)

  /** What reading the profile leaves in the caller's locals: the device's values, or leftovers if it failed. */
  datatype ProfileRead = Fetched | Failed(acceleration: nat, deceleration: nat)

  datatype MotorState = MotorState(profile: Profile, log: seq<Request>)

  const DEFAULT := Profile(Some(10000), 1000, 2000)

  /** A converted speed: 200 times the speed, that is twice its hundredths, where that is an `unsigned int`. */
  function ToUnsigned(v: int): Option<nat> {
    if 0 <= v <= 0xffff_ffff then Some(v) else None
  }

  function WithSpeed(p: Profile, speed: int, read: ProfileRead): Profile {
    match read
    case Fetched => p.(velocity := ToUnsigned(2 * speed))
    case Failed(a, d) => Profile(ToUnsigned(2 * speed), a, d)
  }

  function Initialised(m: MotorState, origin: Origin): MotorState {
    MotorState(DEFAULT, m.log + [Initialise(origin), SetProfile(origin, DEFAULT)])
  }

  function SpeedSet(m: MotorState, origin: Origin, speed: int, read: ProfileRead): MotorState {
    var p := WithSpeed(m.profile, speed, read);
    MotorState(p, m.log + [SetProfile(origin, p)])
  }

  function Moved(m: MotorState, origin: Origin, counts: int): MotorState {
    m.(log := m.log + [MoveRelative(origin, counts)])
  }

  function Halted(m: MotorState, origin: Origin): MotorState {
    m.(log := m.log + [Halt(origin)])
  }

  class MaxonMotor {
    var profile: Profile
    ghost var log: seq<Request>

    ghost function View(): MotorState
      reads this
    {
      MotorState(profile, log)
    }

    constructor ()
      ensures View() == Initialised(MotorState(DEFAULT, []), Service)
    {
      profile := DEFAULT;
      log := [Initialise(Service), SetProfile(Service, DEFAULT)];
    }

    method InitializeDevice(ghost origin: Origin)
      modifies this
      ensures View() == Initialised(old(View()), origin)
    {
      log := log + [Initialise(origin)];
      SetPosModeParameter(origin);
    }

    method SetPosModeParameter(ghost origin: Origin)
      modifies this
      ensures profile == DEFAULT && log == old(log) + [SetProfile(origin, DEFAULT)]
    {
      var p := profile;
      p := p.(velocity := Some(10000));
      p := p.(acceleration := 1000);
      p := p.(deceleration := 2000);
      profile := p;
      log := log + [SetProfile(origin, p)];
    }

    method SetSpeed(ghost origin: Origin, speed: int, read: ProfileRead)
      modifies this
      ensures View() == SpeedSet(old(View()), origin, speed, read)
    {
      var p := if read.Fetched? then profile else Profile(None, read.acceleration, read.deceleration);
      p := p.(velocity := ToUnsigned(2 * speed));
      profile := p;
      log := log + [SetProfile(origin, p)];
    }

    method Move(ghost origin: Origin, counts: int)
      modifies this
      ensures View() == Moved(old(View()), origin, counts)
    {
      log := log + [MoveRelative(origin, counts)];
    }

    method Halt(ghost origin: Origin)
      modifies this
      ensures View() == Halted(old(View()), origin)
    {
      log := log + [Request.Halt(origin)];
    }
  }

  // ---------- Runs of speed changes ----------

  datatype SpeedCall = SpeedCall(speed: int, read: ProfileRead)

  /** The profile after a run of speed changes. */
  function SpeedRun(p: Profile, calls: seq<SpeedCall>): Profile {
    if calls == [] then p
    else
      var last := calls[|calls| - 1];
      WithSpeed(SpeedRun(p, calls[..|calls| - 1]), last.speed, last.read)
  }

  /** No profile read after position `k` failed. */
  predicate AllFetchedFrom(calls: seq<SpeedCall>, k: nat) {
    forall i :: k <= i < |calls| ==> calls[i].read.Fetched?
  }

  lemma {:induction false} RampsKept(p: Profile, calls: seq<SpeedCall>, k: nat)
    requires k <= |calls| && AllFetchedFrom(calls, k)
    ensures var before, after := SpeedRun(p, calls[..k]), SpeedRun(p, calls);
      after.acceleration == before.acceleration && after.deceleration == before.deceleration
  {
    if k == |calls| {
      assert calls[..k] == calls;
    } else {
      var init := calls[..|calls| - 1];
      assert init[..k] == calls[..k];
      RampsKept(p, init, k);
    }
  }

  /** The velocity is always that of the last speed set. */
  lemma LastSpeedWins(p: Profile, calls: seq<SpeedCall>)
    requires calls != []
    ensures SpeedRun(p, calls).velocity == ToUnsigned(2 * calls[|calls| - 1].speed)
    ensures SpeedRun(p, calls).velocity == Some(2 * calls[|calls| - 1].speed) <==>
            0 <= calls[|calls| - 1].speed <= 0x7fff_ffff
  {
  }

  /**
   The ramps survive a run of speed changes exactly when the last failed profile read, if there was any,
   happened to leave the nominal ramps behind.
   */
  lemma {:induction false} RampsNominalIff(calls: seq<SpeedCall>, k: nat)
    requires k <= |calls| && AllFetchedFrom(calls, k) && (k > 0 ==> calls[k - 1].read.Failed?)
    ensures var p := SpeedRun(DEFAULT, calls);
      p.acceleration == 1000 && p.deceleration == 2000 <==> k == 0 || calls[k - 1].read == Failed(1000, 2000)
  {
    RampsKept(DEFAULT, calls, k);
    if k > 0 {
      var part := calls[..k];
      assert SpeedRun(DEFAULT, part) == WithSpeed(SpeedRun(DEFAULT, part[..k - 1]), part[k - 1].speed, part[k - 1].read);
    }
  }

  /** One failed read is enough to lose the ramps. */
  lemma FailedReadLosesRamps()
    ensures SpeedRun(DEFAULT, [SpeedCall(500, Failed(0, 0))]) == Profile(Some(1000), 0, 0)
  {
  }
}
