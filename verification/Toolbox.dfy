/** Toolbox.cpp in its own form: a record object that the decoder fills in or clears in place. */
module Toolbox {
  import opened Options
  import opened Protocol

  class HostRecord {
    var direction: nat
    var speed: int
    var angularDistance: int
    var stimulusNr: nat
    var stimulusDuration: nat
    var loudness: Loudness
    var toBeTriggered: bool
    var movQueued: bool
    var stimQueued: bool

    /** A record whose fields hold whatever they happen to hold, as an uninitialised local does. */
    constructor ()
    {
    }

    function Value(): HostData
      reads this
    {
      HostData(direction, speed, angularDistance, stimulusNr, stimulusDuration, loudness,
               toBeTriggered, movQueued, stimQueued)
    }

    method SetToZero()
      modifies this
      ensures Value() == ZERO
    {
      direction := 0;
      speed := 0;
      angularDistance := 0;
      stimulusNr := 0;
      stimulusDuration := 0;
      loudness := Silence;
      toBeTriggered := false;
      movQueued := false;
      stimQueued := false;
    }
  }

  /** Refuses an unusable record and clears it on the way out; leaves a usable one alone. */
  method CheckForValidity(d: HostRecord, length: nat, index: nat, speaker: int, stimulus: int, duration: int, angle: int)
    returns (ok: bool)
    modifies d
    ensures ok <==> IsValid(length, index, speaker, stimulus, duration, angle)
    ensures d.Value() == if ok then old(d.Value()) else ZERO
  {
    if || length < (index + 1) * STRIDE
       || MAX_SPEAKER_NUMBER < speaker || speaker < 0
       || MAX_STIMULUS_NUMBER < stimulus || stimulus <= 0
       || (duration == 0 && angle == 0)
    {
      d.SetToZero();
      return false;
    }
    return true;
  }

  /** Whatever the record held before, every field of the answer is determined by the text. */
  method DecodeHostData(s: string, index: nat) returns (d: HostRecord)
    ensures fresh(d)
    ensures d.Value() == Decode(s, index)
  {
    hide Field;
    d := new HostRecord();
    var parsed := Parse(s, index * STRIDE);
    if parsed.None? {
      d.SetToZero();
      return;
    }
    var r := parsed.value;
    var ok := CheckForValidity(d, |s|, index, r.speaker, r.stimulus, r.duration, r.angle);
    if ok {
      d.direction := r.direction % 0x100;
      d.speed := 100 * r.speed + r.speedCents;
      d.angularDistance := 100 * r.angle + r.angleCents;
      d.movQueued := r.movFlag == 0;
      d.stimulusDuration := r.duration % 0x1_0000_0000;
      d.stimulusNr := r.stimulus % 0x100;
      d.loudness := Decibel(r.volume);
      d.toBeTriggered := r.trigger != 0;
      d.stimQueued := r.stimFlag == 0;
    }
  }
}
