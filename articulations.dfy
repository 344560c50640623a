/**
 * The string handling of `server/sqliteHandler.js`: `noteNameToMidi`, which
 * reads a note name such as `C1`, `D#2` or `bb3` as a MIDI note number, and
 * the parse of a sound's `Articulations` column (one `name, key` pair per
 * line, the key a decimal note number or a note name).
 */
module Articulations {

  import opened Wrappers
  import opened Text

  datatype Accidental = Natural | Sharp | Flat

  /** The three groups of `/^([A-Ga-g])([#b]?)(-?\d+)$/`, the octave read as a number. */
  datatype NoteName = NoteName(letter: char, accidental: Accidental, octave: int)

  predicate IsNoteLetter(c: char)
  {
    ('A' <= c <= 'G') || ('a' <= c <= 'g')
  }

  /** `toUpperCase` on a note letter. */
  function ToUpper(c: char): char
  {
    match c
    case 'a' => 'A' case 'b' => 'B' case 'c' => 'C' case 'd' => 'D'
    case 'e' => 'E' case 'f' => 'F' case 'g' => 'G'
    case _ => c
  }

  /** The `noteBase` table: semitones above C within the octave. */
  function NoteBase(letter: char): int
  {
    match letter
    case 'C' => 0 case 'D' => 2 case 'E' => 4 case 'F' => 5
    case 'G' => 7 case 'A' => 9 case 'B' => 11
    case _ => 0
  }

  function AccidentalText(a: Accidental): string
  {
    match a
    case Natural => ""
    case Sharp => "#"
    case Flat => "b"
  }

  /** The whole-string match of the note-name pattern, with its groups; None when it does not match. */
  function ParseNoteName(note: string): Option<NoteName>
  {
    if |note| == 0 || !IsNoteLetter(note[0]) then None
    else
      var accidental := if |note| >= 2 && note[1] == '#' then Sharp
                        else if |note| >= 2 && note[1] == 'b' then Flat
                        else Natural;
      var octave := note[1 + |AccidentalText(accidental)|..];
      if SignedDigits(octave) then Some(NoteName(note[0], accidental, SignedValue(octave))) else None
  }

  /** `(octave + 1) * 12 + noteBase[letter]`, raised by one for `#` and lowered by one for `b`. */
  function Midi(n: NoteName): int
  {
    var midi := (n.octave + 1) * 12 + NoteBase(ToUpper(n.letter));
    match n.accidental
    case Natural => midi
    case Sharp => midi + 1
    case Flat => midi - 1
  }

  /** `noteNameToMidi(note)`: the MIDI number, or None (`null`) when the note name does not match. */
  function NoteNameToMidi(note: string): Option<int>
  {
    match ParseNoteName(note)
    case None => None
    case Some(n) => Some(Midi(n))
  }

  /** The regular expression read as an alternation: a letter, then `-?\d+` with or without a `#` or `b` first. */
  predicate NotePattern(s: string)
  {
    && |s| >= 1 && IsNoteLetter(s[0])
    && (SignedDigits(s[1..]) || (|s| >= 2 && (s[1] == '#' || s[1] == 'b') && SignedDigits(s[2..])))
  }

  /** A note name rendered with its octave in canonical decimal. */
  function Render(n: NoteName): string
  {
    [n.letter] + AccidentalText(n.accidental) + IntToDecimal(n.octave)
  }

  /**
   * `noteNameToMidi` accepts exactly the strings the pattern matches in
   * full, and then the string is the letter, the accidental and an octave
   * text whose value is the octave it read.
   */
  lemma ParseNoteNameSpec(s: string)
    ensures ParseNoteName(s).Some? <==> NotePattern(s)
    ensures NoteNameToMidi(s).Some? <==> NotePattern(s)
    ensures ParseNoteName(s).Some? ==>
      var n := ParseNoteName(s).value;
      var k := 1 + |AccidentalText(n.accidental)|;
      && k <= |s| && s[..k] == [n.letter] + AccidentalText(n.accidental)
      && SignedDigits(s[k..]) && SignedValue(s[k..]) == n.octave
  {
    if |s| >= 2 && (s[1] == '#' || s[1] == 'b') {
      assert s[1..][0] == s[1];
    }
  }

  /** Reading back a rendered note name gives the note name and its MIDI number. */
  lemma RenderParses(n: NoteName)
    requires IsNoteLetter(n.letter)
    ensures ParseNoteName(Render(n)) == Some(n)
    ensures NoteNameToMidi(Render(n)) == Some(Midi(n))
  {
    var s := Render(n);
    var k := 1 + |AccidentalText(n.accidental)|;
    var o := IntToDecimal(n.octave);
    assert s[k..] == o;
    SignedRoundTrip(n.octave);
    if n.accidental == Natural {
      assert s[1] == o[0];
    } else {
      assert s[1] == AccidentalText(n.accidental)[0];
    }
  }

  /** The letter's case does not matter. */
  lemma LetterCaseIgnored(c: char, rest: string)
    ensures NoteNameToMidi([c] + rest) == NoteNameToMidi([ToUpper(c)] + rest)
  {
    var s, u := [c] + rest, [ToUpper(c)] + rest;
    if ToUpper(c) != c {
      assert IsNoteLetter(c) && IsNoteLetter(ToUpper(c)) && ToUpper(ToUpper(c)) == ToUpper(c);
      assert s[1..] == rest == u[1..];
      if |rest| >= 1 {
        assert s[1] == rest[0] == u[1];
        assert s[2..] == rest[1..] == u[2..];
      }
      var ps, pu := ParseNoteName(s), ParseNoteName(u);
      assert ps.Some? <==> pu.Some?;
      if ps.Some? {
        assert pu.value == NoteName(ToUpper(c), ps.value.accidental, ps.value.octave);
        assert Midi(pu.value) == Midi(ps.value);
      }
    }
  }

  /** One octave up is twelve semitones up. */
  lemma OctaveIsTwelve(n: NoteName)
    ensures Midi(NoteName(n.letter, n.accidental, n.octave + 1)) == Midi(n) + 12
  {
  }

  /** The values the comment promises. */
  lemma NoteExamples()
    ensures NoteNameToMidi("C-1") == Some(0)
    ensures NoteNameToMidi("C4") == Some(60)
    ensures NoteNameToMidi("G9") == Some(127)
  {
    RenderParses(NoteName('C', Natural, -1));
    assert Render(NoteName('C', Natural, -1)) == "C-1";
    RenderParses(NoteName('C', Natural, 4));
    assert Render(NoteName('C', Natural, 4)) == "C4";
    RenderParses(NoteName('G', Natural, 9));
    assert Render(NoteName('G', Natural, 9)) == "G9";
  }

  /** A sharp, and a flat on a lower-case letter. */
  lemma AccidentalExamples()
    ensures NoteNameToMidi("D#2") == Some(39)
    ensures NoteNameToMidi("bb3") == Some(58)
  {
    RenderParses(NoteName('D', Sharp, 2));
    assert Render(NoteName('D', Sharp, 2)) == "D#2";
    RenderParses(NoteName('b', Flat, 3));
    assert Render(NoteName('b', Flat, 3)) == "bb3";
  }

  /**
   * Values outside 0..127 that the function returns all the same: no range
   * check is made.
   */
  lemma NotesOutOfRange()
    ensures NoteNameToMidi("Cb-1") == Some(-1)
    ensures NoteNameToMidi("C-2") == Some(-12)
    ensures NoteNameToMidi("G#9") == Some(128)
  {
    RenderParses(NoteName('C', Flat, -1));
    assert Render(NoteName('C', Flat, -1)) == "Cb-1";
    RenderParses(NoteName('C', Natural, -2));
    assert Render(NoteName('C', Natural, -2)) == "C-2";
    RenderParses(NoteName('G', Sharp, 9));
    assert Render(NoteName('G', Sharp, 9)) == "G#9";
  }

  /** Strings the pattern refuses. */
  lemma NoteRejections()
    ensures NoteNameToMidi("") == None
    ensures NoteNameToMidi("H1") == None
    ensures NoteNameToMidi("C") == None
    ensures NoteNameToMidi("C#") == None
    ensures NoteNameToMidi("C##1") == None
    ensures NoteNameToMidi("CB1") == None
    ensures NoteNameToMidi("C1 ") == None
    ensures NoteNameToMidi("C-") == None
  {
    assert "C##1"[2..] == "#1" && !IsDigit('#');
    assert "CB1"[1..] == "B1" && !IsDigit('B');
    assert "C1 "[1..] == "1 " && !IsDigit(' ');
  }

  /** One entry of the result: `[artName, midiNumber]`. */
  datatype Articulation = Articulation(name: string, midiNumber: Option<int>)

  /** The key: an all-digit key is read as decimal, anything else as a note name. */
  function ParseKey(kw: string): Option<int>
  {
    if AllDigits(kw) then Some(DecimalValue(kw)) else NoteNameToMidi(kw)
  }

  /**
   * An all-digit key, leading zeros and all, reads as its decimal value; a
   * rendered note name is never all digits, so it is read as the note.
   */
  lemma ParseKeySpec(z: nat, n: nat, note: NoteName)
    requires IsNoteLetter(note.letter)
    ensures ParseKey(Zeros(z) + NatToDecimal(n)) == Some(n)
    ensures !AllDigits(Render(note))
    ensures ParseKey(Render(note)) == Some(Midi(note))
  {
    var kw := Zeros(z) + NatToDecimal(n);
    assert AllDigits(kw) by {
      forall k | 0 <= k < |kw| ensures IsDigit(kw[k]) {
        if k >= z {
          assert kw[k] == NatToDecimal(n)[k - z];
        }
      }
    }
    LeadingZeros(z, NatToDecimal(n));
    DecimalRoundTrip(n);
    RenderParses(note);
    assert !IsDigit(Render(note)[0]);
  }

  /** One line: None unless it has exactly two comma-separated fields. */
  function ParseLine(line: string): Option<Articulation>
  {
    var item := Split(line, ',');
    if |item| != 2 then None else Some(Articulation(Trim(item[0]), ParseKey(Trim(item[1]))))
  }

  /**
   * A line is kept exactly when it holds one comma; the name is then the
   * trimmed text before it, which holds no comma and no surrounding white
   * space.
   */
  lemma ParseLineSpec(line: string)
    ensures ParseLine(line).Some? <==> Count(line, ',') == 1
    ensures ParseLine(line).Some? ==>
      var a := ParseLine(line).value;
      ',' !in a.name && Trim(a.name) == a.name
  {
    SplitPieces(line, ',');
    var item := Split(line, ',');
    if |item| == 2 {
      assert item[0] in item;
      var i, j := TrimSpec(item[0]);
      TrimIdempotent(item[0]);
      forall k | 0 <= k < j - i ensures item[0][i..j][k] != ',' {
        assert item[0][i..j][k] == item[0][i + k];
      }
    }
  }

  /** A name and a key joined by one comma make one entry. */
  lemma PairParses(name: string, key: string)
    requires ',' !in name && ',' !in key
    ensures ParseLine(name + "," + key) == Some(Articulation(Trim(name), ParseKey(Trim(key))))
  {
    var pieces := [name, key];
    assert Join(pieces, ',') == name + "," + key;
    JoinSplit(pieces, ',');
  }

  /** The `for (const item of splits)` loop: the kept lines' entries, in line order. */
  function ArticulationsOf(lines: seq<string>): seq<Articulation>
    decreases |lines|
  {
    if lines == [] then []
    else
      var entry := ParseLine(lines[|lines| - 1]);
      ArticulationsOf(lines[..|lines| - 1]) + if entry.Some? then [entry.value] else []
  }

  /** The order of the lines is kept: the entries of two blocks of lines are the entries of each, in turn. */
  lemma {:induction false} ArticulationsAppend(a: seq<string>, b: seq<string>)
    ensures ArticulationsOf(a + b) == ArticulationsOf(a) + ArticulationsOf(b)
    decreases |b|
  {
    if b == [] {
      assert a + b == a;
    } else {
      var b' := b[..|b| - 1];
      ArticulationsAppend(a, b');
      assert (a + b)[..|a + b| - 1] == a + b';
      assert (a + b)[|a + b| - 1] == b[|b| - 1];
    }
  }

  /** At most one entry per line. */
  lemma {:induction false} ArticulationsBound(lines: seq<string>)
    ensures |ArticulationsOf(lines)| <= |lines|
    decreases |lines|
  {
    if lines != [] {
      ArticulationsBound(lines[..|lines| - 1]);
    }
  }

  /**
   * What the callback resolves with for an `Articulations` value: None for
   * a missing or empty value, otherwise the entries of its lines.
   */
  function ArticulationsOfValue(text: Option<string>): Option<seq<Articulation>>
  {
    if text.None? || text.value == "" then None else Some(ArticulationsOf(Split(text.value, '\n')))
  }

  /** A non-empty text made of newline-free lines parses line by line. */
  lemma ArticulationsOfLines(lines: seq<string>)
    requires |lines| >= 1 && forall l | l in lines :: '\n' !in l
    requires Join(lines, '\n') != ""
    ensures ArticulationsOfValue(Some(Join(lines, '\n'))) == Some(ArticulationsOf(lines))
  {
    JoinSplit(lines, '\n');
  }

  /** Keys of each kind. */
  lemma KeyExamples()
    ensures ParseKey("C1") == Some(24)
    ensures ParseKey("36") == Some(36)
    ensures ParseKey("X9") == None
    ensures ParseKey("036") == Some(36)
  {
    assert "036" == Zeros(1) + "36" && AllDigits("36");
    LeadingZeros(1, "36");
    RenderParses(NoteName('C', Natural, 1));
    assert Render(NoteName('C', Natural, 1)) == "C1";
    assert AllDigits("36") && "36"[..1] == "3";
  }

  /** A note-name key after a space. */
  lemma NoteKeyLine()
    ensures ParseLine("Legato" + "," + " C1") == Some(Articulation("Legato", Some(24)))
  {
    assert Trim("Legato") == "Legato" by { TrimUnchanged("Legato"); }
    assert Trim(" C1") == "C1" by {
      TrimLeadingSpace("C1");
      assert [' '] + "C1" == " C1";
      TrimUnchanged("C1");
    }
    KeyExamples();
    assert ParseLine("Legato" + "," + " C1") == Some(Articulation(Trim("Legato"), ParseKey(Trim(" C1")))) by {
      PairParses("Legato", " C1");
    }
  }

  /** A decimal key. */
  lemma DecimalKeyLine()
    ensures ParseLine("Staccato" + "," + "36") == Some(Articulation("Staccato", Some(36)))
  {
    assert Trim("Staccato") == "Staccato" by { TrimUnchanged("Staccato"); }
    assert Trim("36") == "36" by { TrimUnchanged("36"); }
    KeyExamples();
    assert ParseLine("Staccato" + "," + "36") == Some(Articulation(Trim("Staccato"), ParseKey(Trim("36")))) by {
      PairParses("Staccato", "36");
    }
  }

  /** A key that is neither is kept with no number. */
  lemma UnreadableKeyLine()
    ensures ParseLine("Pizz" + "," + " X9") == Some(Articulation("Pizz", None))
  {
    assert Trim("Pizz") == "Pizz" by { TrimUnchanged("Pizz"); }
    assert Trim(" X9") == "X9" by {
      TrimLeadingSpace("X9");
      assert [' '] + "X9" == " X9";
      TrimUnchanged("X9");
    }
    KeyExamples();
    assert ParseLine("Pizz" + "," + " X9") == Some(Articulation(Trim("Pizz"), ParseKey(Trim(" X9")))) by {
      PairParses("Pizz", " X9");
    }
  }

  /** A line with no comma is dropped. */
  lemma NoCommaLine()
    ensures ParseLine("bad line") == None
  {
    ParseLineSpec("bad line");
  }

  /**
   * Lines 55-78 of the callback: the text is split into lines and each line
   * into fields; lines without exactly two fields are skipped, the others
   * yield their trimmed name and key.
   */
  method ParseArticulations(articulations: Option<string>) returns (result: Option<seq<Articulation>>)
    ensures result == ArticulationsOfValue(articulations)
    ensures result.None? <==> articulations.None? || articulations.value == ""
  {
    if articulations.None? || articulations.value == "" {
      return None;
    }
    var lines := Split(articulations.value, '\n');
    var splits := seq(|lines|, i requires 0 <= i < |lines| => Split(lines[i], ','));
    var entries: seq<Articulation> := [];
    for i := 0 to |splits|
      invariant entries == ArticulationsOf(lines[..i])
    {
      assert lines[..i + 1][..i] == lines[..i];
      var item := splits[i];
      if |item| != 2 {
        continue;
      }
      var artName := Trim(item[0]);
      var kw := Trim(item[1]);
      var midiNumber: Option<int>;
      if AllDigits(kw) {
        midiNumber := Some(DecimalValue(kw));
      } else {
        midiNumber := NoteNameToMidi(kw);
      }
      entries := entries + [Articulation(artName, midiNumber)];
    }
    assert lines[..|lines|] == lines;
    return Some(entries);
  }
}
