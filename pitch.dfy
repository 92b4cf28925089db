/** hz_to_pitch in src/transforms.rs from the rounded MIDI number on: the
    note name, the octave, the cents offset and the label that shows them.
    The MIDI number 69 + 12 * log2(hz / 440) and its two roundings are not
    modelled; the rounded MIDI number and the rounded hundredths of it are
    the inputs. */
module Pitch {

  import opened Wrappers

  /** Rust's i32. */
  type i32 = x: int | -0x8000_0000 <= x < 0x8000_0000

  const PitchNames: seq<string> := ["C", "C#", "D", "Eb", "E", "F", "F#", "G", "G#", "A", "Bb", "B"]

  /** Rust's `/` on integers: the quotient truncated toward zero. */
  function TruncDiv(a: int, b: int): (q: int)
    requires b > 0
    ensures a >= 0 ==> 0 <= a - b * q < b
    ensures a < 0 ==> -b < a - b * q <= 0
  {
    if a >= 0 then a / b else -((-a) / b)
  }

  /** Rust's `%` (on whole-valued floats as on integers): the remainder
      takes the sign of the dividend. */
  function TruncRem(a: int, b: int): (r: int)
    requires b > 0
    ensures -b < r < b && a - r == b * TruncDiv(a, b)
    ensures a >= 0 ==> r >= 0
    ensures a < 0 ==> r <= 0
  {
    a - b * TruncDiv(a, b)
  }

  /** `rounded_pitch as usize` on a 32-bit target: a negative value wraps. */
  function AsUsize(x: i32): (r: nat)
    ensures r < 0x1_0000_0000 && (r - x) % 0x1_0000_0000 == 0
  {
    if x >= 0 then x else x + 0x1_0000_0000
  }

  /** The index into the note names: `rounded_pitch as usize % 12`. */
  function NameIndex(roundedPitch: i32): (r: nat)
    ensures r < |PitchNames|
  {
    AsUsize(roundedPitch) % |PitchNames|
  }

  /** `rounded_pitch / 12 - 1`: MIDI 0 is in octave -1. */
  function Octave(roundedPitch: i32): int {
    TruncDiv(roundedPitch, |PitchNames|) - 1
  }

  /** The octave is negative exactly below MIDI 12; from there on, octave and
      note name together give back the MIDI number. */
  lemma OctaveSpec(roundedPitch: i32)
    ensures Octave(roundedPitch) < 0 <==> roundedPitch < 12
    ensures roundedPitch >= 0 ==> roundedPitch == 12 * (Octave(roundedPitch) + 1) + NameIndex(roundedPitch)
  {
  }

  /** The cents as written: the rounded hundredths modulo 100, less 100 when
      50 or more. It differs from the hundredths by a whole number of
      semitones, and for a non-negative input it lies in [-50, 49]. */
  function Cents(centiMidi: int): (r: int)
    ensures -100 < r < 50
    ensures (centiMidi - r) % 100 == 0
    ensures centiMidi >= 0 ==> -50 <= r < 50
  {
    var cents := TruncRem(centiMidi, 100);
    if cents >= 50 then cents - 100 else cents
  }

  function Digit(d: nat): (c: char)
    requires d < 10
    ensures IsDigit(c)
  {
    (48 + d) as char
  }

  predicate IsDigit(c: char) {
    '0' <= c <= '9'
  }

  function DigitValue(c: char): nat
    requires IsDigit(c)
  {
    c as int - 48
  }

  /** The decimal digits of n, most significant first, as `{}` prints it. */
  function NatToString(n: nat): (s: string)
    ensures |s| > 0 && forall i :: 0 <= i < |s| ==> IsDigit(s[i])
  {
    if n < 10 then [Digit(n)] else NatToString(n / 10) + [Digit(n % 10)]
  }

  /** The number a string of digits denotes. */
  function DigitsValue(s: string): nat
    requires forall i :: 0 <= i < |s| ==> IsDigit(s[i])
  {
    if s == [] then 0 else 10 * DigitsValue(s[..|s| - 1]) + DigitValue(s[|s| - 1])
  }

  lemma {:induction false} DigitsValueOfNatToString(n: nat)
    ensures DigitsValue(NatToString(n)) == n
  {
    if n >= 10 {
      var s := NatToString(n);
      assert s[..|s| - 1] == NatToString(n / 10);
      DigitsValueOfNatToString(n / 10);
    }
  }

  /** `{:+}`: an explicit sign, '+' for zero too. */
  function SignedToString(x: int): string {
    if x >= 0 then "+" + NatToString(x) else "-" + NatToString(-x)
  }

  /** `format!("{}{} {:+}", name, octave, cents)` */
  function Label(nameIndex: nat, octave: nat, cents: int): string
    requires nameIndex < |PitchNames|
  {
    PitchNames[nameIndex] + NatToString(octave) + " " + SignedToString(cents)
  }

  /** hz_to_pitch from the rounded MIDI number and the rounded hundredths of
      the MIDI number on, as written. */
  function HzToPitch(roundedPitch: i32, centiMidi: int): string {
    if Octave(roundedPitch) < 0 then "< C1"
    else Label(NameIndex(roundedPitch), Octave(roundedPitch), Cents(centiMidi))
  }

  // ---------------------------------------------------------------------
  // Reading a label back

  function IndexOfName(name: string, from: nat): (r: Option<nat>)
    requires from <= |PitchNames|
    ensures r.Some? ==> r.value < |PitchNames| && PitchNames[r.value] == name
    decreases |PitchNames| - from
  {
    if from == |PitchNames| then None
    else if PitchNames[from] == name then Some(from)
    else IndexOfName(name, from + 1)
  }

  function ParseNat(s: string): Option<nat> {
    if s != [] && forall i :: 0 <= i < |s| ==> IsDigit(s[i]) then Some(DigitsValue(s)) else None
  }

  function ParseSigned(s: string): Option<int> {
    if |s| >= 1 && (s[0] == '+' || s[0] == '-') then
      match ParseNat(s[1..])
      case None => None
      case Some(n) => if s[0] == '+' then Some(n as int) else if n == 0 then None else Some(-(n as int))
    else None
  }

  /** The index of the first space in s, or |s|. */
  function FirstSpace(s: string): (i: nat)
    ensures i <= |s| && forall j :: 0 <= j < i ==> s[j] != ' '
    ensures i < |s| ==> s[i] == ' '
  {
    if s == [] then 0 else if s[0] == ' ' then 0 else 1 + FirstSpace(s[1..])
  }

  /** The note, octave and cents a label shows: the name is two characters
      when its second character is '#' or 'b'. */
  function ParseLabel(s: string): Option<(nat, nat, int)> {
    if s == [] then None
    else
      var n := NameLength(s);
      match (IndexOfName(s[..n], 0), ParseOctaveAndCents(s[n..]))
      case (Some(i), Some((octave, cents))) => Some((i, octave, cents))
      case _ => None
  }

  /** The length of the note name a label starts with. */
  function NameLength(s: string): (n: nat)
    requires s != []
    ensures n <= |s|
  {
    if |s| >= 2 && (s[1] == '#' || s[1] == 'b') then 2 else 1
  }

  /** The octave and the signed cents after the note name, split at the
      first space. */
  function ParseOctaveAndCents(rest: string): Option<(nat, int)> {
    var sp := FirstSpace(rest);
    if sp == |rest| then None
    else match (ParseNat(rest[..sp]), ParseSigned(rest[sp + 1..]))
      case (Some(octave), Some(cents)) => Some((octave, cents))
      case _ => None
  }

  lemma IndexOfNameOfPitchName(i: nat)
    requires i < |PitchNames|
    ensures IndexOfName(PitchNames[i], 0) == Some(i)
  {
  }

  lemma ParseNatOfNatToString(n: nat)
    ensures ParseNat(NatToString(n)) == Some(n)
  {
    DigitsValueOfNatToString(n);
  }

  lemma ParseSignedOfSignedToString(x: int)
    ensures ParseSigned(SignedToString(x)) == Some(x)
  {
    var s := SignedToString(x);
    if x >= 0 {
      assert s[1..] == NatToString(x);
      ParseNatOfNatToString(x);
    } else {
      assert s[1..] == NatToString(-x);
      ParseNatOfNatToString(-x);
    }
  }

  /** A label reads back as the note, octave and cents it was made from. */
  lemma ParseLabelRoundTrip(nameIndex: nat, octave: nat, cents: int)
    requires nameIndex < |PitchNames|
    ensures ParseLabel(Label(nameIndex, octave, cents)) == Some((nameIndex, octave, cents))
  {
    var name, rest := PitchNames[nameIndex], NatToString(octave) + " " + SignedToString(cents);
    assert Label(nameIndex, octave, cents) == name + rest;
    NameShape(nameIndex);
    IndexOfNameOfPitchName(nameIndex);
    assert IsDigit(rest[0]);
    ParseOctaveAndCentsRoundTrip(octave, cents);
    SplitAfterName(name, rest);
    ParseLabelOfParts(name + rest, |name|, nameIndex, octave, cents);
  }

  lemma ParseLabelOfParts(s: string, n: nat, i: nat, octave: nat, cents: int)
    requires s != [] && NameLength(s) == n
    requires IndexOfName(s[..n], 0) == Some(i) && ParseOctaveAndCents(s[n..]) == Some((octave, cents))
    ensures ParseLabel(s) == Some((i, octave, cents))
  {
  }

  /** Every note name is one letter, optionally followed by '#' or 'b'. */
  lemma NameShape(i: nat)
    requires i < |PitchNames|
    ensures 1 <= |PitchNames[i]| <= 2
    ensures |PitchNames[i]| == 2 ==> PitchNames[i][1] == '#' || PitchNames[i][1] == 'b'
  {
  }

  /** A note name followed by text that starts with a digit is split after
      the name. */
  lemma SplitAfterName(name: string, rest: string)
    requires 1 <= |name| <= 2 && (|name| == 2 ==> name[1] == '#' || name[1] == 'b')
    requires rest != [] && IsDigit(rest[0])
    ensures NameLength(name + rest) == |name|
    ensures (name + rest)[..|name|] == name && (name + rest)[|name|..] == rest
  {
    var s := name + rest;
    if |name| == 1 {
      assert s[1] == rest[0];
    } else {
      assert s[1] == name[1];
    }
  }

  /** The octave and the cents read back from their printed forms. */
  lemma ParseOctaveAndCentsRoundTrip(octave: nat, cents: int)
    ensures ParseOctaveAndCents(NatToString(octave) + " " + SignedToString(cents)) == Some((octave, cents))
  {
    var digits, signed := NatToString(octave), SignedToString(cents);
    var rest := digits + " " + signed;
    assert FirstSpace(rest) == |digits| by {
      assert forall j :: 0 <= j < |digits| ==> rest[j] == digits[j] && IsDigit(rest[j]);
      FirstSpaceAt(rest, |digits|);
    }
    assert rest[..|digits|] == digits;
    assert rest[|digits| + 1..] == signed;
    ParseNatOfNatToString(octave);
    ParseSignedOfSignedToString(cents);
  }

  lemma {:induction false} FirstSpaceAt(s: string, i: nat)
    requires i < |s| && s[i] == ' ' && forall j :: 0 <= j < i ==> s[j] != ' '
    ensures FirstSpace(s) == i
  {
    if i > 0 {
      assert forall j :: 0 <= j < i - 1 ==> s[1..][j] == s[j + 1];
      FirstSpaceAt(s[1..], i - 1);
    }
  }

  /** "< C1" is told apart from every label. */
  lemma BelowC1IsNotALabel()
    ensures ParseLabel("< C1") == None
  {
    assert "< C1"[..1] == "<";
  }

  /** From MIDI 12 on, the label shows the rounded MIDI number and the cents
      exactly: two MIDI numbers give the same label only when they and their
      cents agree, and no label is "< C1". */
  lemma HzToPitchDeterminesNote(rp: i32, c: int, rp': i32, c': int)
    requires rp >= 12 && rp' >= 12
    ensures HzToPitch(rp, c) != "< C1"
    ensures HzToPitch(rp, c) == HzToPitch(rp', c') <==> rp == rp' && Cents(c) == Cents(c')
  {
    OctaveSpec(rp);
    OctaveSpec(rp');
    ParseLabelRoundTrip(NameIndex(rp), Octave(rp), Cents(c));
    ParseLabelRoundTrip(NameIndex(rp'), Octave(rp'), Cents(c'));
    BelowC1IsNotALabel();
  }

  /** The examples of the source's tests, from their rounded inputs:
      440 Hz is MIDI 69, 110 Hz is 45, 261.63 Hz is 60 and 698.46 Hz is 77,
      each at a whole hundred of hundredths. */
  lemma ConcertA()
    ensures HzToPitch(69, 6900) == "A4 +0"
  {
    assert Octave(69) == 4 && NameIndex(69) == 9 && Cents(6900) == 0;
    assert NatToString(4) == "4" && SignedToString(0) == "+0";
  }

  lemma A2()
    ensures HzToPitch(45, 4500) == "A2 +0"
  {
    assert Octave(45) == 2 && NameIndex(45) == 9 && Cents(4500) == 0;
    assert NatToString(2) == "2" && SignedToString(0) == "+0";
  }

  lemma MiddleC()
    ensures HzToPitch(60, 6000) == "C4 +0"
  {
    assert Octave(60) == 4 && NameIndex(60) == 0 && Cents(6000) == 0;
    assert NatToString(4) == "4" && SignedToString(0) == "+0";
  }

  lemma F5()
    ensures HzToPitch(77, 7700) == "F5 +0"
  {
    assert Octave(77) == 5 && NameIndex(77) == 5 && Cents(7700) == 0;
    assert NatToString(5) == "5" && SignedToString(0) == "+0";
  }

  /** Below MIDI 12 the octave is negative: B0 (MIDI 23) is named, B-1
      (MIDI 11) is not. */
  lemma BelowC1()
    ensures HzToPitch(11, 1100) == "< C1"
    ensures HzToPitch(12, 1200) == "C0 +0"
  {
    assert Octave(11) == -1 && Octave(12) == 0 && NameIndex(12) == 0 && Cents(1200) == 0;
    assert NatToString(0) == "0" && SignedToString(0) == "+0";
  }

  // ---------------------------------------------------------------------
  // The cents of a note a quarter tone sharp

  /** The two roundings of one MIDI number m: rp = round(m) and
      c = round(100 * m) lie within 50 hundredths of each other. */
  predicate Consistent(roundedPitch: i32, centiMidi: int) {
    -50 <= centiMidi - 100 * roundedPitch <= 50
  }

  /** The hundredths of a MIDI number a label shows: 100 times the note's
      MIDI number plus the cents. */
  function Shown(text: string): Option<int> {
    match ParseLabel(text)
    case None => None
    case Some((i, octave, cents)) => Some(100 * (12 * (octave + 1) + i) + cents)
  }

  /** From MIDI 12 on, a label with the note's name and octave shows the
      note's hundredths plus the cents. */
  lemma ShownLabel(rp: i32, cents: int)
    requires rp >= 12
    ensures Octave(rp) >= 0
    ensures Shown(Label(NameIndex(rp), Octave(rp), cents)) == Some(100 * rp + cents)
  {
    var i, o := NameIndex(rp), Octave(rp);
    assert o >= 0 && 100 * (12 * (o + 1) + i) + cents == 100 * rp + cents by {
      OctaveSpec(rp);
    }
    ShownOfLabel(i, o, cents);
  }

  /** A label shows the hundredths of the note it names plus its cents. */
  lemma ShownOfLabel(i: nat, octave: nat, cents: int)
    requires i < |PitchNames|
    ensures Shown(Label(i, octave, cents)) == Some(100 * (12 * (octave + 1) + i) + cents)
  {
    ParseLabelRoundTrip(i, octave, cents);
    ShownOfParsed(Label(i, octave, cents), i, octave, cents);
  }

  lemma ShownOfParsed(text: string, i: nat, octave: nat, cents: int)
    requires ParseLabel(text) == Some((i, octave, cents))
    ensures Shown(text) == Some(100 * (12 * (octave + 1) + i) + cents)
  {
  }

  /** From MIDI 12 on, the label shows the note's hundredths plus the cents
      as written. */
  lemma ShownHzToPitch(rp: i32, c: int)
    requires rp >= 12
    ensures Shown(HzToPitch(rp, c)) == Some(100 * rp + Cents(c))
  {
    ShownLabel(rp, Cents(c));
  }

  /** As written, the cents are the offset from the rounded note, except
      that +50 comes out as -50. */
  lemma CentsNearNote(rp: i32, c: int)
    requires rp >= 12 && Consistent(rp, c)
    ensures Cents(c) == if c - 100 * rp == 50 then -50 else c - 100 * rp
  {
    var d := c - 100 * rp;
    if d < 0 {
      assert c == 100 * (rp - 1) + (d + 100) && 0 <= d + 100 < 100;
      assert c / 100 == rp - 1;
    } else {
      assert c == 100 * rp + d && 0 <= d < 100;
      assert c / 100 == rp;
    }
  }

  /** As written, the cents are the hundredths modulo 100 while the note is
      round(m): for m in [69.495, 69.5) the note is A4 and the cents are
      -50, so the label shows 68.50 for a pitch of 69.50. */
  lemma QuarterToneSharpAsWritten()
    ensures Consistent(69, 6950)
    ensures HzToPitch(69, 6950) == "A4 -50"
    ensures Shown(HzToPitch(69, 6950)) == Some(6850)
  {
    assert Cents(6950) == -50 by {
      assert TruncRem(6950, 100) == 50;
    }
    assert Octave(69) == 4 && NameIndex(69) == 9;
    assert HzToPitch(69, 6950) == Label(9, 4, -50);
    assert Label(9, 4, -50) == "A4 -50" by {
      assert NatToString(4) == "4";
      assert NatToString(50) == "50" by {
        assert NatToString(5) == "5";
      }
    }
    ShownLabel(69, -50);
  }

  /** As written, from MIDI 12 on, the label shows the rounded note's
      hundredths plus the cents, and for a pitch within a quarter tone of
      that note the cents are its offset from it, except that an offset of
      +50 is shown as -50: the label then reads a whole semitone low. */
  lemma HzToPitchShowsPitchUnlessHalfSharp(rp: i32, c: int)
    requires rp >= 12 && Consistent(rp, c)
    ensures Shown(HzToPitch(rp, c)) == Some(100 * rp + Cents(c))
    ensures Cents(c) == if c - 100 * rp == 50 then -50 else c - 100 * rp
  {
    ShownHzToPitch(rp, c);
    CentsNearNote(rp, c);
  }

  /** The cents measured from the note the label names. */
  function CentsCorrected(roundedPitch: i32, centiMidi: int): int {
    centiMidi - 100 * roundedPitch
  }

  /** hz_to_pitch with the cents taken from the named note. */
  function HzToPitchCorrected(roundedPitch: i32, centiMidi: int): string {
    if Octave(roundedPitch) < 0 then "< C1"
    else Label(NameIndex(roundedPitch), Octave(roundedPitch), CentsCorrected(roundedPitch, centiMidi))
  }

  /** Corrected, from MIDI 12 on, the label shows the note's hundredths
      plus the corrected cents. */
  lemma ShownHzToPitchCorrected(rp: i32, c: int)
    requires rp >= 12
    ensures Shown(HzToPitchCorrected(rp, c)) == Some(100 * rp + CentsCorrected(rp, c))
  {
    ShownLabel(rp, CentsCorrected(rp, c));
  }

  /** Corrected, from MIDI 12 on, the label shows the pitch exactly. */
  lemma HzToPitchCorrectedShowsPitch(rp: i32, c: int)
    requires rp >= 12
    ensures Shown(HzToPitchCorrected(rp, c)) == Some(c)
  {
    ShownHzToPitchCorrected(rp, c);
  }

  /** The correction changes the label only 50 hundredths above a rounded
      MIDI number. */
  lemma HzToPitchCorrectedAgrees(rp: i32, c: int)
    requires rp >= 12 && Consistent(rp, c)
    ensures HzToPitchCorrected(rp, c) == HzToPitch(rp, c) <==> c - 100 * rp != 50
  {
    CentsNearNote(rp, c);
    if c - 100 * rp == 50 {
      ShownHzToPitchCorrected(rp, c);
      ShownHzToPitch(rp, c);
      assert Shown(HzToPitchCorrected(rp, c)) != Shown(HzToPitch(rp, c));
    } else {
      ShownLabel(rp, c - 100 * rp);
    }
  }
}
