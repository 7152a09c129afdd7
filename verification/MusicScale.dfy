/** The pitch tables of MusicScale.h and the two lookups of MusicScale.cpp. */
module MusicScale {
  const N_NOTES := 12

  const NOTES: seq<string> := ["A", "A#", "B", "C", "C#", "D", "D#", "E", "F", "F#", "G", "G#"]

  const PITCHES: seq<real> := [
    1.0, 1.0594630943592953, 1.122462048309373, 1.189207115002721, 1.2599210498948732, 1.3348398541700344,
    1.4142135623730951, 1.4983070768766815, 1.5874010519681994, 1.681792830507429, 1.7817974362806785,
    1.8877486253633868]

  const A_FREQS: seq<real> := [22.5, 55.0, 110.0, 220.0, 440.0, 880.0, 1760.0, 3520.0, 7040.0]

  /** The table entries a lookup touches exist. */
  predicate InTables(octave: int, note: int) {
    0 <= note && 0 <= octave && octave + note / N_NOTES < 9
  }

  /** A note beyond the octave carries into the next one. */
  function GetPitch(octave: int, note: int): real
    requires InTables(octave, note)
  {
    if note < N_NOTES then PITCHES[note] * A_FREQS[octave]
    else PITCHES[note % N_NOTES] * A_FREQS[octave + note / N_NOTES]
  }

  /** The lookup by name: a search through the names, 0 for an unknown one. */
  method GetPitchByName(octave: int, note: string) returns (pitch: real)
    requires note in NOTES ==> 0 <= octave < 9
    ensures note !in NOTES ==> pitch == 0.0
    ensures note == "A" ==> pitch == GetPitch(octave, 0)
    ensures note == "A#" ==> pitch == GetPitch(octave, 1)
    ensures note == "B" ==> pitch == GetPitch(octave, 2)
    ensures note == "C" ==> pitch == GetPitch(octave, 3)
    ensures note == "C#" ==> pitch == GetPitch(octave, 4)
    ensures note == "D" ==> pitch == GetPitch(octave, 5)
    ensures note == "D#" ==> pitch == GetPitch(octave, 6)
    ensures note == "E" ==> pitch == GetPitch(octave, 7)
    ensures note == "F" ==> pitch == GetPitch(octave, 8)
    ensures note == "F#" ==> pitch == GetPitch(octave, 9)
    ensures note == "G" ==> pitch == GetPitch(octave, 10)
    ensures note == "G#" ==> pitch == GetPitch(octave, 11)
    ensures forall i :: 0 <= i < N_NOTES && NOTES[i] == note ==> pitch == GetPitch(octave, i)
  {
    for i := 0 to N_NOTES
      invariant note !in NOTES[..i]
    {
      if NOTES[i] == note {
        NamesDistinct();
        return PITCHES[i] * A_FREQS[octave];
      }
    }
    return 0.0;
  }

  lemma NamesDistinct()
    ensures forall i, j :: 0 <= i < j < N_NOTES ==> NOTES[i] != NOTES[j]
  {
  }

  /** Both branches of the lookup read the same two cells. */
  lemma GetPitchReads(octave: int, note: int)
    requires InTables(octave, note)
    ensures GetPitch(octave, note) == PITCHES[note % N_NOTES] * A_FREQS[octave + note / N_NOTES]
  {
    if note < N_NOTES {
      assert note % N_NOTES == note && note / N_NOTES == 0;
    }
  }

  lemma AddOctaves(note: nat, k: nat)
    ensures (note + N_NOTES * k) / N_NOTES == note / N_NOTES + k
    ensures (note + N_NOTES * k) % N_NOTES == note % N_NOTES
  {
  }

  /** Twelve notes up is one octave up, any number of times. */
  lemma {:induction false} PitchCarries(octave: int, note: int, k: nat)
    requires note >= 0 && InTables(octave, note + N_NOTES * k)
    ensures InTables(octave + k, note)
    ensures GetPitch(octave, note + N_NOTES * k) == GetPitch(octave + k, note)
  {
    hide GetPitch;
    AddOctaves(note, k);
    var high := note + N_NOTES * k;
    assert octave + high / N_NOTES == octave + k + note / N_NOTES;
    GetPitchReads(octave, high);
    GetPitchReads(octave + k, note);
  }

  lemma PitchTable(m: int, n: int)
    requires 0 <= m < N_NOTES && 0 <= n < N_NOTES
    ensures 1.0 <= PITCHES[m] < 2.0
    ensures m < n ==> PITCHES[m] < PITCHES[n]
  {
  }

  lemma OctaveTable(a: int, b: int)
    requires 0 <= a < 9 && 0 <= b < 9
    ensures 0.0 < A_FREQS[a]
    ensures a < b ==> 2.0 * A_FREQS[a] <= A_FREQS[b]
    ensures b == a + 1 ==> (A_FREQS[b] == 2.0 * A_FREQS[a] <==> a >= 1)
  {
  }

  lemma ProductGrows(p: real, q: real, f: real, g: real)
    requires 0.0 < f && 0.0 < p
    requires (p < q && f == g) || (p < 2.0 && 1.0 <= q && 2.0 * f <= g)
    ensures p * f < q * g
  {
    if p < q && f == g {
      assert 0.0 < (q - p) * f;
    } else {
      assert 0.0 < (2.0 - p) * f == 2.0 * f - p * f;
      assert 0.0 <= (q - 1.0) * g == q * g - g;
    }
  }

  lemma NotesOrdered(low: nat, high: nat)
    requires low < high
    ensures low / N_NOTES < high / N_NOTES || (low / N_NOTES == high / N_NOTES && low % N_NOTES < high % N_NOTES)
  {
  }

  lemma CellsRise(a: int, b: int, m: int, n: int)
    requires 0 <= a <= b < 9 && 0 <= m < N_NOTES && 0 <= n < N_NOTES && (a < b || m < n)
    ensures PITCHES[m] * A_FREQS[a] < PITCHES[n] * A_FREQS[b]
  {
    var p, q, f, g := PITCHES[m], PITCHES[n], A_FREQS[a], A_FREQS[b];
    PitchTable(m, n);
    PitchTable(n, m);
    OctaveTable(a, b);
    hide PITCHES;
    hide A_FREQS;
    ProductGrows(p, q, f, g);
  }

  /** Pitches rise strictly with the note, across every octave boundary in the tables. */
  lemma {:induction false} PitchRises(octave: int, low: int, high: int)
    requires 0 <= low < high && InTables(octave, high)
    ensures InTables(octave, low)
    ensures GetPitch(octave, low) < GetPitch(octave, high)
  {
    hide GetPitch;
    NotesOrdered(low, high);
    GetPitchReads(octave, low);
    GetPitchReads(octave, high);
    CellsRise(octave + low / N_NOTES, octave + high / N_NOTES, low % N_NOTES, high % N_NOTES);
  }

  lemma DoubledProduct(p: real, f: real, g: real)
    requires 0.0 < p
    ensures p * g == 2.0 * (p * f) <==> g == 2.0 * f
  {
  }

  lemma CellsDouble(a: int, m: int)
    requires 0 <= a < 8 && 0 <= m < N_NOTES
    ensures PITCHES[m] * A_FREQS[a + 1] == 2.0 * (PITCHES[m] * A_FREQS[a]) <==> a >= 1
  {
    var p, f, g := PITCHES[m], A_FREQS[a], A_FREQS[a + 1];
    PitchTable(m, m);
    OctaveTable(a, a + 1);
    hide PITCHES;
    hide A_FREQS;
    DoubledProduct(p, f, g);
  }

  /**
   An octave doubles the frequency everywhere except out of the lowest one, whose reference of 22.5 is not half
   of the next one's 55.
   */
  lemma {:induction false} OctaveDoubles(octave: int, note: int)
    requires note >= 0 && InTables(octave, note + N_NOTES)
    ensures InTables(octave, note)
    ensures GetPitch(octave, note + N_NOTES) == 2.0 * GetPitch(octave, note) <==> octave + note / N_NOTES >= 1
  {
    hide GetPitch;
    AddOctaves(note, 1);
    GetPitchReads(octave, note + N_NOTES);
    GetPitchReads(octave, note);
    CellsDouble(octave + note / N_NOTES, note % N_NOTES);
    assert octave + (note + N_NOTES) / N_NOTES == octave + note / N_NOTES + 1;
    hide PITCHES;
    hide A_FREQS;
  }

  // ---------- The tables are an equally tempered scale ----------

  function Twelfth(p: real): real {
    var square := p * p;
    var fourth := square * square;
    fourth * fourth * fourth
  }

  /** Twelve steps of any table entry are as many octaves, within 10^-11. */
  lemma EqualTemperament(i: nat)
    requires i < N_NOTES
    ensures var octaves := [1.0, 2.0, 4.0, 8.0, 16.0, 32.0, 64.0, 128.0, 256.0, 512.0, 1024.0, 2048.0][i];
      -0.00000000001 < Twelfth(PITCHES[i]) - octaves < 0.00000000001
  {
  }

  /** The references: concert pitch in octave 4, halved down to 55, and 22.5 in octave 0. */
  lemma ReferencePitches()
    ensures GetPitch(0, 0) == 22.5 && GetPitch(1, 0) == 55.0 && GetPitch(4, 0) == 440.0 && GetPitch(8, 0) == 7040.0
  {
  }
}
