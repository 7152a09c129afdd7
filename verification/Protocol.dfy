/**
 The host protocol (Toolbox.cpp, Toolbox.h): a fixed-width text record is sliced, every slice is
 converted, and the record is either delivered or replaced by the all-zero record.

 Speeds and angles carry two decimals and are kept as exact hundredths.
 */
module Protocol {
  import opened Options
  import opened Numerals

  /** Linear loudness is 10^((level - 90) / 20), which is never 0; the zero record stores a plain 0. */
  datatype Loudness = Silence | Decibel(level: int)

  datatype HostData = HostData(
    direction: nat,
    speed: int,
    angularDistance: int,
    stimulusNr: nat,
    stimulusDuration: nat,
    loudness: Loudness,
    toBeTriggered: bool,
    movQueued: bool,
    stimQueued: bool)

  const ZERO := HostData(0, 0, 0, 0, 0, Silence, false, false, false)

  const MAX_STIMULUS_NUMBER := 3
  const MAX_SPEAKER_NUMBER := 2
  const STRIDE := 27
  const WIDTH := 28

  /** The twelve numbers of a record, before validation. */
  datatype Raw = Raw(
    speaker: int, direction: int, speed: int, speedCents: int, angle: int, angleCents: int, movFlag: int,
    stimulus: int, duration: int, volume: int, trigger: int, stimFlag: int)

  /** `std::string::substr`: throws past the end, otherwise yields at most `n` characters. */
  function Substr(s: string, pos: nat, n: nat): Option<string> {
    if pos > |s| then None
    else Some(s[pos..if pos + n <= |s| then pos + n else |s|])
  }

  function Field(s: string, pos: nat, n: nat): Option<int> {
    var slice :- Substr(s, pos, n);
    Stoi(slice)
  }

  function Parse(s: string, start: nat): Option<Raw> {
    var speaker :- Field(s, start, 2);
    var direction :- Field(s, start + 2, 1);
    var speed :- Field(s, start + 3, 3);
    var speedCents :- Field(s, start + 7, 2);
    var angle :- Field(s, start + 9, 3);
    var angleCents :- Field(s, start + 13, 2);
    var movFlag :- Field(s, start + 15, 1);
    var stimulus :- Field(s, start + 16, 2);
    var duration :- Field(s, start + 18, 6);
    var volume :- Field(s, start + 24, 2);
    var trigger :- Field(s, start + 26, 1);
    var stimFlag :- Field(s, start + 27, 1);
    Some(Raw(speaker, direction, speed, speedCents, angle, angleCents, movFlag,
             stimulus, duration, volume, trigger, stimFlag))
  }

  /** The condition tested by `bCheckForValidity`. */
  predicate IsValid(length: nat, index: nat, speaker: int, stimulus: int, duration: int, angle: int) {
    && (index + 1) * STRIDE <= length
    && 0 <= speaker <= MAX_SPEAKER_NUMBER
    && 0 < stimulus <= MAX_STIMULUS_NUMBER
    && !(duration == 0 && angle == 0)
  }

  /** The record's fields, converted to the unsigned widths they are stored in. */
  function Convert(r: Raw): HostData {
    HostData(r.direction % 0x100,
             100 * r.speed + r.speedCents,
             100 * r.angle + r.angleCents,
             r.stimulus % 0x100,
             r.duration % 0x1_0000_0000,
             Decibel(r.volume),
             r.trigger != 0,
             r.movFlag == 0,
             r.stimFlag == 0)
  }

  function Decode(s: string, index: nat): HostData {
    match Parse(s, index * STRIDE)
    case None => ZERO
    case Some(r) => if IsValid(|s|, index, r.speaker, r.stimulus, r.duration, r.angle) then Convert(r) else ZERO
  }

  // ---------- Totality ----------

  lemma FieldBound(s: string, pos: nat, n: nat)
    requires n > 0
    ensures Field(s, pos, n).Some? ==> -Pow10(n - 1) < Field(s, pos, n).value < Pow10(n)
  {
    var slice := Substr(s, pos, n);
    if slice.Some? {
      StoiBound(slice.value);
      Pow10Monotone(|slice.value|, n);
      if |slice.value| > 0 {
        Pow10Monotone(|slice.value| - 1, n - 1);
      }
    }
  }

  lemma Powers()
    ensures Pow10(0) == 1 && Pow10(1) == 10 && Pow10(2) == 100 && Pow10(3) == 1000 && Pow10(6) == 1_000_000
  {
  }

  lemma DigitField(s: string, pos: nat)
    ensures Field(s, pos, 1).Some? ==> 0 <= Field(s, pos, 1).value <= 9
  {
    FieldBound(s, pos, 1);
    Powers();
  }

  /**
   Every string at every index decodes to a complete record: the zero one, or one with stimulus 1..3, a
   one-digit direction, and a speed and an angle within their fields, so no unsigned field but the duration
   can wrap.
   */
  lemma DecodeTotal(s: string, index: nat)
    ensures var d := Decode(s, index);
      d == ZERO ||
      (&& 1 <= d.stimulusNr <= MAX_STIMULUS_NUMBER
       && d.direction <= 9
       && -9909 <= d.speed <= 99999
       && -9909 <= d.angularDistance <= 99999
       && d.stimulusDuration < 0x1_0000_0000
       && d.loudness.Decibel? && -9 <= d.loudness.level <= 99)
  {
    hide Field;
    var start := index * STRIDE;
    DigitField(s, start + 2);
    FieldBound(s, start + 3, 3);
    FieldBound(s, start + 7, 2);
    FieldBound(s, start + 9, 3);
    FieldBound(s, start + 13, 2);
    FieldBound(s, start + 24, 2);
    Powers();
  }

  /** A record that is not the zero record was long enough, named a known speaker and asked for something. */
  lemma DeliveredRecord(s: string, index: nat)
    ensures Decode(s, index) != ZERO <==>
            Parse(s, index * STRIDE).Some? &&
            var r := Parse(s, index * STRIDE).value;
            0 <= r.speaker <= 2 && 1 <= r.stimulus <= 3 && (r.duration != 0 || r.angle != 0)
  {
  }

  // ---------- Locality ----------

  /** The last slice alone forces the whole 28-character window to exist. */
  lemma ParsedWindowExists(s: string, start: nat)
    ensures Parse(s, start).Some? ==> start + WIDTH <= |s|
  {
  }

  /** The explicit length test of `bCheckForValidity` never decides: the slices have already parsed. */
  lemma LengthTestImplied(s: string, index: nat)
    ensures Parse(s, index * STRIDE).Some? ==> (index + 1) * STRIDE < |s|
  {
  }

  lemma SliceOfSlice(s: string, start: nat, width: nat, pos: nat, n: nat)
    requires start + width <= |s| && pos + n <= width
    ensures s[start..start + width][pos..pos + n] == s[start + pos..start + pos + n]
  {
    var w := s[start..start + width];
    var inner, outer := w[pos..pos + n], s[start + pos..start + pos + n];
    forall i | 0 <= i < n
      ensures inner[i] == outer[i]
    {
      assert w[pos + i] == s[start + (pos + i)];
    }
    assert inner == outer;
  }

  lemma FieldInWindow(s: string, start: nat, pos: nat, n: nat)
    requires start + WIDTH <= |s| && pos + n <= WIDTH
    ensures Field(s, start + pos, n) == Field(s[start..start + WIDTH], pos, n)
  {
    SliceOfSlice(s, start, WIDTH, pos, n);
    var w := s[start..start + WIDTH];
    assert Substr(s, start + pos, n) == Substr(w, pos, n) by {
      assert start + pos + n <= |s| && pos + n <= |w|;
    }
  }

  /** Decoding depends only on the 28 characters at the index's stride; a string that lacks one decodes to zero. */
  lemma DecodeLocal(s: string, index: nat)
    ensures Decode(s, index) ==
            if index * STRIDE + WIDTH <= |s|
            then Decode(s[index * STRIDE..index * STRIDE + WIDTH], 0)
            else ZERO
  {
    hide Field;
    var start := index * STRIDE;
    ParsedWindowExists(s, start);
    if start + WIDTH <= |s| {
      ParseWindow(s, start);
    }
  }

  lemma ParseWindow(s: string, start: nat)
    requires start + WIDTH <= |s|
    ensures Parse(s, start) == Parse(s[start..start + WIDTH], 0)
  {
    hide Field;
    FieldInWindow(s, start, 0, 2);
    FieldInWindow(s, start, 2, 1);
    FieldInWindow(s, start, 3, 3);
    FieldInWindow(s, start, 7, 2);
    FieldInWindow(s, start, 9, 3);
    FieldInWindow(s, start, 13, 2);
    FieldInWindow(s, start, 15, 1);
    FieldInWindow(s, start, 16, 2);
    FieldInWindow(s, start, 18, 6);
    FieldInWindow(s, start, 24, 2);
    FieldInWindow(s, start, 26, 1);
    FieldInWindow(s, start, 27, 1);
  }

  // ---------- What a record means ----------

  /** The slices of a record as texts, with the two characters nothing looks at. */
  datatype Slices = Slices(
    speaker: string, direction: string, speed: string, speedPoint: char, speedCents: string,
    angle: string, anglePoint: char, angleCents: string, movFlag: string,
    stimulus: string, duration: string, volume: string, trigger: string, stimFlag: string)

  predicate Sized(t: Slices) {
    && |t.speaker| == 2 && |t.direction| == 1 && |t.speed| == 3 && |t.speedCents| == 2
    && |t.angle| == 3 && |t.angleCents| == 2 && |t.movFlag| == 1
    && |t.stimulus| == 2 && |t.duration| == 6 && |t.volume| == 2 && |t.trigger| == 1 && |t.stimFlag| == 1
  }

  /** Speaker, direction and speed. */
  function WriteHead(t: Slices): (s: string)
    requires Sized(t)
    ensures |s| == 9
  {
    t.speaker + t.direction + t.speed + [t.speedPoint] + t.speedCents
  }

  /** Angle and movement flag. */
  function WriteTurn(t: Slices): (s: string)
    requires Sized(t)
    ensures |s| == 7
  {
    t.angle + [t.anglePoint] + t.angleCents + t.movFlag
  }

  /** The stimulus. */
  function WriteTail(t: Slices): (s: string)
    requires Sized(t)
    ensures |s| == 12
  {
    t.stimulus + t.duration + t.volume + t.trigger + t.stimFlag
  }

  function Write(t: Slices): (s: string)
    requires Sized(t)
    ensures |s| == WIDTH
  {
    WriteHead(t) + WriteTurn(t) + WriteTail(t)
  }

  /** The numbers of the slices, if every one of them holds a number. */
  function Read(t: Slices): Option<Raw> {
    var speaker :- Stoi(t.speaker);
    var direction :- Stoi(t.direction);
    var speed :- Stoi(t.speed);
    var speedCents :- Stoi(t.speedCents);
    var angle :- Stoi(t.angle);
    var angleCents :- Stoi(t.angleCents);
    var movFlag :- Stoi(t.movFlag);
    var stimulus :- Stoi(t.stimulus);
    var duration :- Stoi(t.duration);
    var volume :- Stoi(t.volume);
    var trigger :- Stoi(t.trigger);
    var stimFlag :- Stoi(t.stimFlag);
    Some(Raw(speaker, direction, speed, speedCents, angle, angleCents, movFlag,
             stimulus, duration, volume, trigger, stimFlag))
  }

  /** A record that the decoder is meant to accept. */
  predicate Deliverable(r: Raw) {
    && 0 <= r.speaker <= MAX_SPEAKER_NUMBER
    && 1 <= r.stimulus <= MAX_STIMULUS_NUMBER
    && !(r.duration == 0 && r.angle == 0)
  }

  /** The numbers that slices of these widths can hold, as far as their signs matter. */
  predicate Storable(r: Raw) {
    0 <= r.direction <= 9 && -100_000 < r.duration < 1_000_000
  }

  /** The command a deliverable record denotes, field by field; a negative duration is stored modulo 2^32. */
  function Meaning(r: Raw): HostData
    requires Storable(r) && Deliverable(r)
  {
    HostData(r.direction, 100 * r.speed + r.speedCents, 100 * r.angle + r.angleCents, r.stimulus,
             if r.duration >= 0 then r.duration else 4_294_967_296 + r.duration,
             Decibel(r.volume), r.trigger != 0, r.movFlag == 0, r.stimFlag == 0)
  }

  lemma FieldIsSlice(s: string, pos: nat, n: nat, slice: string)
    requires pos + n <= |s| && s[pos..pos + n] == slice
    ensures Field(s, pos, n) == Stoi(slice)
  {
  }

  lemma WriteParts(t: Slices)
    requires Sized(t)
    ensures var s := Write(t);
      s[0..9] == WriteHead(t) && s[9..16] == WriteTurn(t) && s[16..28] == WriteTail(t)
  {
    hide WriteHead;
    hide WriteTurn;
    hide WriteTail;
  }

  lemma HeadSlices(t: Slices)
    requires Sized(t)
    ensures var s := WriteHead(t);
      && s[0..2] == t.speaker && s[2..3] == t.direction && s[3..6] == t.speed
      && s[6] == t.speedPoint && s[7..9] == t.speedCents
  {
  }

  lemma TurnSlices(t: Slices)
    requires Sized(t)
    ensures var s := WriteTurn(t);
      s[0..3] == t.angle && s[4..6] == t.angleCents && s[6..7] == t.movFlag
  {
  }

  lemma TailSlices(t: Slices)
    requires Sized(t)
    ensures var s := WriteTail(t);
      && s[0..2] == t.stimulus && s[2..8] == t.duration && s[8..10] == t.volume
      && s[10..11] == t.trigger && s[11..12] == t.stimFlag
  {
  }

  /** A slice of a part of the text, found where the part begins. */
  lemma FieldOfPart(s: string, start: nat, part: string, pos: nat, n: nat, slice: string)
    requires start + |part| <= |s| && s[start..start + |part|] == part
    requires pos + n <= |part| && part[pos..pos + n] == slice
    ensures Field(s, start + pos, n) == Stoi(slice)
  {
    hide Field;
    SliceOfSlice(s, start, |part|, pos, n);
    FieldIsSlice(s, start + pos, n, slice);
  }

  lemma HeadFields(s: string, t: Slices)
    requires Sized(t) && 9 <= |s| && s[0..9] == WriteHead(t)
    ensures Field(s, 0, 2) == Stoi(t.speaker) && Field(s, 2, 1) == Stoi(t.direction)
    ensures Field(s, 3, 3) == Stoi(t.speed) && Field(s, 7, 2) == Stoi(t.speedCents)
  {
    hide Field;
    hide Stoi;
    HeadSlices(t);
    hide WriteHead;
    var part := WriteHead(t);
    FieldOfPart(s, 0, part, 0, 2, t.speaker);
    FieldOfPart(s, 0, part, 2, 1, t.direction);
    FieldOfPart(s, 0, part, 3, 3, t.speed);
    FieldOfPart(s, 0, part, 7, 2, t.speedCents);
  }

  lemma TurnFields(s: string, t: Slices)
    requires Sized(t) && 16 <= |s| && s[9..16] == WriteTurn(t)
    ensures Field(s, 9, 3) == Stoi(t.angle) && Field(s, 13, 2) == Stoi(t.angleCents)
    ensures Field(s, 15, 1) == Stoi(t.movFlag)
  {
    hide Field;
    hide Stoi;
    TurnSlices(t);
    hide WriteTurn;
    var part := WriteTurn(t);
    FieldOfPart(s, 9, part, 0, 3, t.angle);
    FieldOfPart(s, 9, part, 4, 2, t.angleCents);
    FieldOfPart(s, 9, part, 6, 1, t.movFlag);
  }

  lemma TailFields(s: string, t: Slices)
    requires Sized(t) && 28 <= |s| && s[16..28] == WriteTail(t)
    ensures Field(s, 16, 2) == Stoi(t.stimulus) && Field(s, 18, 6) == Stoi(t.duration)
    ensures Field(s, 24, 2) == Stoi(t.volume) && Field(s, 26, 1) == Stoi(t.trigger)
    ensures Field(s, 27, 1) == Stoi(t.stimFlag)
  {
    hide Field;
    hide Stoi;
    TailSlices(t);
    hide WriteTail;
    var part := WriteTail(t);
    FieldOfPart(s, 16, part, 0, 2, t.stimulus);
    FieldOfPart(s, 16, part, 2, 6, t.duration);
    FieldOfPart(s, 16, part, 8, 2, t.volume);
    FieldOfPart(s, 16, part, 10, 1, t.trigger);
    FieldOfPart(s, 16, part, 11, 1, t.stimFlag);
  }

  lemma {:induction false} ParseWrite(t: Slices)
    requires Sized(t)
    ensures Parse(Write(t), 0) == Read(t)
  {
    hide Field;
    hide Stoi;
    WriteParts(t);
    hide Write;
    var s := Write(t);
    HeadFields(s, t);
    TurnFields(s, t);
    TailFields(s, t);
  }

  lemma ReadStorable(t: Slices)
    requires Sized(t)
    ensures Read(t).Some? ==> Storable(Read(t).value)
  {
    hide Stoi;
    StoiBound(t.direction);
    StoiBound(t.duration);
    Powers();
    assert Pow10(5) == 100_000;
  }

  /**
   The whole decoder: whatever twelve texts of the right widths stand in the slices, whatever the two characters
   between them, before the record and after it, the answer is what the twelve numbers denote if all are numbers and
   the record is deliverable, and the zero record if not.
   */
  lemma {:induction false} DecodeWritten(before: string, t: Slices, after: string, index: nat)
    requires Sized(t) && |before| == index * STRIDE
    ensures Read(t).Some? ==> Storable(Read(t).value)
    ensures Decode(before + Write(t) + after, index) ==
            if Read(t).Some? && Deliverable(Read(t).value) then Meaning(Read(t).value) else ZERO
  {
    hide Field;
    hide Read;
    hide Write;
    hide Parse;
    var s := before + Write(t) + after;
    DecodeLocal(s, index);
    assert s[index * STRIDE..index * STRIDE + WIDTH] == Write(t);
    ParseWrite(t);
    ReadStorable(t);
  }

  // ---------- The inverse encoder ----------

  /** Every number fits the digits the protocol gives it. */
  predicate Fits(r: Raw) {
    && 0 <= r.speaker < 100 && 0 <= r.direction < 10
    && 0 <= r.speed < 1000 && 0 <= r.speedCents < 100
    && 0 <= r.angle < 1000 && 0 <= r.angleCents < 100
    && 0 <= r.movFlag < 10
    && 0 <= r.stimulus < 100 && 0 <= r.duration < 1_000_000 && 0 <= r.volume < 100
    && 0 <= r.trigger < 10 && 0 <= r.stimFlag < 10
  }

  /** The numerals the protocol description prescribes for a record. */
  function InNumerals(r: Raw): (t: Slices)
    requires Fits(r)
    ensures Sized(t)
  {
    Powers();
    Slices(Numeral(r.speaker, 2), Numeral(r.direction, 1), Numeral(r.speed, 3), '.', Numeral(r.speedCents, 2),
           Numeral(r.angle, 3), '.', Numeral(r.angleCents, 2), Numeral(r.movFlag, 1),
           Numeral(r.stimulus, 2), Numeral(r.duration, 6), Numeral(r.volume, 2),
           Numeral(r.trigger, 1), Numeral(r.stimFlag, 1))
  }

  function Encode(r: Raw): (s: string)
    requires Fits(r)
    ensures |s| == WIDTH
  {
    Write(InNumerals(r))
  }

  lemma {:induction false} ReadNumerals(r: Raw)
    requires Fits(r)
    ensures Read(InNumerals(r)) == Some(r)
  {
    hide Stoi;
    hide Numeral;
    Powers();
    StoiNumeral(r.speaker, 2);
    StoiNumeral(r.direction, 1);
    StoiNumeral(r.speed, 3);
    StoiNumeral(r.speedCents, 2);
    StoiNumeral(r.angle, 3);
    StoiNumeral(r.angleCents, 2);
    StoiNumeral(r.movFlag, 1);
    StoiNumeral(r.stimulus, 2);
    StoiNumeral(r.duration, 6);
    StoiNumeral(r.volume, 2);
    StoiNumeral(r.trigger, 1);
    StoiNumeral(r.stimFlag, 1);
  }

  lemma {:induction false} ParseEncode(r: Raw)
    requires Fits(r)
    ensures Parse(Encode(r), 0) == Some(r)
  {
    hide Read;
    hide Parse;
    hide InNumerals;
    hide Write;
    ParseWrite(InNumerals(r));
    ReadNumerals(r);
  }

  /**
   Round trip at every index: a well-formed record that starts at the index's stride, whatever precedes and
   follows it, decodes to exactly what it denotes when it is deliverable and to the zero record when it is not.
   */
  lemma {:induction false} RoundTrip(before: string, r: Raw, after: string, index: nat)
    requires Fits(r) && |before| == index * STRIDE
    ensures Decode(before + Encode(r) + after, index) == if Deliverable(r) then Meaning(r) else ZERO
  {
    hide Decode;
    hide Read;
    hide InNumerals;
    hide Write;
    DecodeWritten(before, InNumerals(r), after, index);
    ReadNumerals(r);
  }

  /** Two well-formed records with the same text are the same record. */
  lemma {:induction false} EncodeInjective(a: Raw, b: Raw)
    requires Fits(a) && Fits(b) && Encode(a) == Encode(b)
    ensures a == b
  {
    hide Parse;
    hide Encode;
    ParseEncode(a);
    ParseEncode(b);
  }

  /** A record whose speed and angle are written with a leading minus sign and two digits. */
  function Negated(r: Raw, speed: int, angle: int): (t: Slices)
    requires Fits(r) && 0 <= speed < 100 && 0 <= angle < 100
    ensures Sized(t)
  {
    Powers();
    InNumerals(r).(speed := "-" + Numeral(speed, 2), angle := "-" + Numeral(angle, 2))
  }

  lemma {:induction false} StoiNegative(n: int)
    requires 0 <= n < 100
    ensures Pow10(2) == 100 && Stoi("-" + Numeral(n, 2)) == Some(-n)
  {
    Powers();
    StoiSigned("", "-", n, 2, "");
    hide Stoi;
    hide Numeral;
    assert "" + "-" + Numeral(n, 2) + "" == "-" + Numeral(n, 2);
  }

  lemma {:induction false} ReadNegated(r: Raw, speed: int, angle: int)
    requires Fits(r) && 0 <= speed < 100 && 0 <= angle < 100
    ensures Read(Negated(r, speed, angle)) == Some(r.(speed := -speed, angle := -angle))
  {
    hide Stoi;
    hide Numeral;
    StoiNegative(speed);
    StoiNegative(angle);
    ReadNumerals(r);
  }

  /**
   Negative speeds and angles get through: the whole part counts down while its hundredths count up, so a minus sign
   before 90 and 50 hundredths is 89.50 degrees back.
   */
  lemma {:induction false} NegativeFieldsDecoded(before: string, r: Raw, speed: int, angle: int, after: string, index: nat)
    requires Fits(r) && 0 <= speed < 100 && 0 <= angle < 100 && |before| == index * STRIDE
    requires Deliverable(r.(angle := -angle))
    ensures Decode(before + Write(Negated(r, speed, angle)) + after, index) ==
            HostData(r.direction, r.speedCents - 100 * speed, r.angleCents - 100 * angle, r.stimulus, r.duration,
                     Decibel(r.volume), r.trigger != 0, r.movFlag == 0, r.stimFlag == 0)
  {
    hide Decode;
    hide Read;
    hide Negated;
    hide Write;
    DecodeWritten(before, Negated(r, speed, angle), after, index);
    ReadNegated(r, speed, angle);
  }

  // ---------- The stride is one less than the width ----------

  /** A string holds `records` at the decoder's stride. */
  ghost predicate LaidOut(s: string, records: seq<Raw>) {
    forall k :: 0 <= k < |records| ==>
      Fits(records[k]) && k * STRIDE + WIDTH <= |s| && s[k * STRIDE..k * STRIDE + WIDTH] == Encode(records[k])
  }

  /**
   Consecutive records share a character: the stimulus flag of one is the leading speaker digit of the next.
   So in any laid-out message every record but the last has the flag its successor's speaker number dictates,
   which for a known speaker means its stimulus is queued.
   */
  lemma EncodeEnds(r: Raw)
    requires Fits(r)
    ensures var s := Encode(r);
      s[0] == DigitChar(r.speaker / 10) && s[27] == DigitChar(r.stimFlag) && s[6] == '.'
  {
    Powers();
    assert Numeral(r.speaker, 2)[0] == DigitChar(r.speaker / 10);
    assert Numeral(r.stimFlag, 1)[0] == DigitChar(r.stimFlag);
    hide Numeral;
    WriteParts(InNumerals(r));
    HeadSlices(InNumerals(r));
    TailSlices(InNumerals(r));
    hide WriteHead;
    hide WriteTail;
    hide Write;
    var t, s := InNumerals(r), Encode(r);
    assert s[0] == s[0..9][0] == WriteHead(t)[0..2][0];
    assert s[6] == s[0..9][6];
    assert s[27] == s[16..28][11] == WriteTail(t)[11..12][0];
  }

  lemma {:induction false} StrideSharesFlag(s: string, records: seq<Raw>, k: nat)
    requires LaidOut(s, records) && k + 1 < |records|
    ensures records[k].stimFlag == records[k + 1].speaker / 10
    ensures Deliverable(records[k + 1]) && Deliverable(records[k]) ==> Decode(s, k).stimQueued
  {
    hide Encode;
    hide Decode;
    var a, b := Encode(records[k]), Encode(records[k + 1]);
    EncodeEnds(records[k]);
    EncodeEnds(records[k + 1]);
    assert a[27] == s[k * STRIDE..k * STRIDE + WIDTH][27] == s[k * STRIDE + 27];
    assert b[0] == s[(k + 1) * STRIDE..(k + 1) * STRIDE + WIDTH][0] == s[(k + 1) * STRIDE];
    var start := k * STRIDE;
    assert s == s[..start] + s[start..start + WIDTH] + s[start + WIDTH..];
    RoundTrip(s[..start], records[k], s[start + WIDTH..], k);
  }

  /** Two records written one after the other at full width: the second is never delivered. */
  lemma BackToBackRejected(a: Raw, b: Raw, after: string)
    requires Fits(a) && Fits(b)
    ensures Decode(Encode(a) + Encode(b) + after, 1) == ZERO
  {
    EncodeEnds(b);
    hide Encode;
    var s := Encode(a) + Encode(b) + after;
    assert s[34] == Encode(b)[6] == '.';
    var slice := s[34..36];
    assert Substr(s, 34, 2) == Some(slice);
    assert SkipSpace(slice) == slice;
    assert Field(s, STRIDE + 7, 2).None?;
  }
}
