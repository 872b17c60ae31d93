/**
 * The text format the parser expects, written out: rendering a workout as
 * a segment and a list of workouts as a submission, and the proofs that the
 * parser reads back exactly what was rendered.
 */
module WorkoutText {
  import opened Wrappers
  import opened JsString
  import opened JsNumber
  import opened WorkoutParser

  /** A workout with whole-number fields, as a user would type it. */
  datatype Entry = Entry(category: string, name: string, sets: nat, reps: nat, weight: nat, duration: nat)

  /** A category or name that survives the format: no white space at its ends, no newline, no ";". */
  predicate IsLabel(s: string) {
    Trimmed(s) && '\n' !in s && ';' !in s
  }

  predicate WellFormed(e: Entry) {
    IsLabel(e.category) && IsLabel(e.name)
  }

  /** The block the parser is expected to produce for an entry. */
  function ToBlock(e: Entry): Block {
    Block(e.category, e.name, Some(e.sets), Some(e.reps), Finite(e.weight as real), Finite(e.duration as real))
  }

  /** The five lines of a segment: "#Legs", "-Squats", "-3 setsX10 reps", "-60 kg", "-20 min". */
  function EntryLines(e: Entry): seq<string> {
    [ "#" + e.category,
      "-" + e.name,
      ("-" + NatToString(e.sets) + " ") + "sets" + (("X" + NatToString(e.reps) + " ") + "reps"),
      ("-" + NatToString(e.weight) + " ") + "kg" + "",
      ("-" + NatToString(e.duration) + " ") + "min" + "" ]
  }

  function FormatSegment(e: Entry): string {
    Join(EntryLines(e), "\n")
  }

  /** The segments of a rendered submission. */
  function SegmentTexts(es: seq<Entry>): (lines: seq<string>)
    ensures |lines| == |es| && forall i :: 0 <= i < |es| ==> lines[i] == FormatSegment(es[i])
  {
    seq(|es|, i requires 0 <= i < |es| => FormatSegment(es[i]))
  }

  function FormatSubmission(es: seq<Entry>): string {
    Join(SegmentTexts(es), ";")
  }

  /** A digit string after a marker and before white space trims to the digits. */
  lemma TrimDigits(ds: string, marker: char)
    requires |ds| >= 1 && AllDigits(ds, false)
    ensures Trim(Substring1([marker] + ds + " ")) == ds
  {
    assert Substring1([marker] + ds + " ") == ds + " ";
    assert Trimmed(ds) by {
      assert IsDigit(ds[0]) && IsDigit(ds[|ds| - 1]);
    }
    assert AllWhitespace(" ");
    TrimTrailing(ds, " ");
  }

  /** No digit string contains a code point that is not a digit. */
  lemma NotInDigits(ds: string, c: char)
    requires AllDigits(ds, false) && !IsDigit(c)
    ensures c !in ds
  {
    assert forall k :: 0 <= k < |ds| ==> ds[k] != c by {
      forall k | 0 <= k < |ds| ensures ds[k] != c {
        assert IsDigit(ds[k]);
      }
    }
  }

  /** `text` + `unit`, with no first code point of `unit` in `text`, is cut exactly before `unit`. */
  lemma FieldOf(text: string, unit: string, rest: string)
    requires |unit| > 0 && unit[0] !in text
    ensures Field(text + unit + rest, unit) == Trim(Substring1(text))
  {
    SplitAfter(text, unit, rest);
  }

  /** "X<digits> reps" has no "sets": its only "s" is the last code point. */
  lemma NoSetsInReps(ds: string)
    requires 's' !in ds
    ensures !Contains(("X" + ds + " ") + "reps", "sets")
  {
    var c := "X" + ds + " ";
    var b := c + "reps";
    assert 's' !in c;
    forall k: nat | k + 4 <= |b| ensures b[k] != 's' {
      if k < |c| {
        assert b[k] == c[k];
      } else {
        assert k == |c| && b[k] == 'r';
      }
    }
    forall k: nat ensures !OccursAt(b, "sets", k) {
      if k + 4 <= |b| {
        assert b[k..k + 4][0] == b[k];
      }
    }
  }

  /** The sets/reps line, for arbitrary canonical digit strings. */
  lemma SetsRepsDigits(d1: string, d2: string)
    requires Canonical(d1) && Canonical(d2)
    ensures var line := ("-" + d1 + " ") + "sets" + (("X" + d2 + " ") + "reps");
      && Contains(line, "sets")
      && ParseInt(Field(line, "sets")) == Some(DigitsValue(d1, false))
      && |Split(line, "sets")| >= 2
      && ParseInt(Field(Split(line, "sets")[1], "reps")) == Some(DigitsValue(d2, false))
  {
    var a := "-" + d1 + " ";
    var c := "X" + d2 + " ";
    var b := c + "reps";
    var line := a + "sets" + b;
    NotInDigits(d1, 's');
    NotInDigits(d2, 's');
    NotInDigits(d2, 'r');
    assert 's' !in a;
    assert 'r' !in c;
    SplitAfter(a, "sets", b);
    NoSetsInReps(d2);
    SplitAbsent(b, "sets");
    assert Split(line, "sets") == [a, b];
    FieldOf(a, "sets", b);
    TrimDigits(d1, '-');
    ParseIntDigits(d1, "");
    assert d1 + "" == d1;
    FieldOf(c, "reps", "");
    assert c + "reps" + "" == b;
    TrimDigits(d2, 'X');
    ParseIntDigits(d2, "");
    assert d2 + "" == d2;
  }

  /** The weight or duration line, for an arbitrary digit string. */
  lemma QuantityDigits(ds: string, unit: string)
    requires |ds| >= 1 && AllDigits(ds, false)
    requires unit == "kg" || unit == "min"
    ensures ParseFloat(Field(("-" + ds + " ") + unit + "", unit)) == Finite(DigitsValue(ds, false) as real)
  {
    QuantityField(ds, unit);
    ParseFloatDigits(ds, "");
    assert ds + "" == ds;
  }

  /** The text before the unit in a weight or duration line trims to its digits. */
  lemma QuantityField(ds: string, unit: string)
    requires |ds| >= 1 && AllDigits(ds, false)
    requires |unit| > 0 && !IsDigit(unit[0]) && unit[0] != '-' && unit[0] != ' '
    ensures Field(("-" + ds + " ") + unit + "", unit) == ds
  {
    var a := "-" + ds + " ";
    NotInDigits(ds, unit[0]);
    assert unit[0] !in a;
    FieldOf(a, unit, "");
    TrimDigits(ds, '-');
  }

  /**
   * A line that starts with a marker, has no newline and does not end in
   * white space survives the split on newlines and the trim.
   */
  lemma MarkedLine(marker: char, body: string)
    requires !IsWhitespace(marker) && '\n' !in body
    requires body == [] || !IsWhitespace(body[|body| - 1])
    ensures Trimmed([marker] + body) && '\n' !in [marker] + body
  {
    var s := [marker] + body;
    assert s[0] == marker;
    assert body != [] ==> s[|s| - 1] == body[|body| - 1];
  }

  /** A line that survives both splits and the trims unchanged. */
  predicate CleanLine(s: string) {
    '\n' !in s && ';' !in s && Trimmed(s)
  }

  /** A line made of a marker, a digit string and constant text holds no ";". */
  lemma DigitLineWithoutSemicolon(head: string, ds: string, tail: string)
    requires AllDigits(ds, false) && ';' !in head && ';' !in tail
    ensures ';' !in head + ds + tail
  {
    NotInDigits(ds, ';');
  }

  /** The sets/reps line starts with "-", ends with "s" and has no newline or ";". */
  lemma SetsRepsLineClean(d1: string, d2: string)
    requires AllDigits(d1, false) && AllDigits(d2, false)
    ensures CleanLine(("-" + d1 + " ") + "sets" + (("X" + d2 + " ") + "reps"))
  {
    NotInDigits(d1, '\n');
    NotInDigits(d2, '\n');
    var p := ("-" + d1 + " ") + "sets";
    var q := ("X" + d2 + " ") + "reps";
    assert p[0] == '-';
    assert q[|q| - 1] == 's';
    assert (p + q)[0] == p[0];
    assert (p + q)[|p + q| - 1] == q[|q| - 1];
    DigitLineWithoutSemicolon("X", d2, " reps");
    assert q == "X" + d2 + " reps";
    DigitLineWithoutSemicolon("-", d1, " sets" + q);
    assert p + q == "-" + d1 + (" sets" + q);
  }

  /** A weight or duration line starts with "-", ends with the unit and has no newline or ";". */
  lemma QuantityLineClean(ds: string, unit: string)
    requires AllDigits(ds, false)
    requires unit == "kg" || unit == "min"
    ensures CleanLine(("-" + ds + " ") + unit + "")
  {
    NotInDigits(ds, '\n');
    var p := "-" + ds + " ";
    var line := p + unit + "";
    assert line == p + unit;
    assert p[0] == '-';
    assert (p + unit)[0] == p[0];
    assert (p + unit)[|p + unit| - 1] == unit[|unit| - 1];
    DigitLineWithoutSemicolon("-", ds, " " + unit);
    assert line == "-" + ds + (" " + unit);
  }

  /** Lines without newlines and without white space at their ends come back from Parts. */
  lemma PartsOfJoin(lines: seq<string>)
    requires |lines| >= 1
    requires forall i :: 0 <= i < |lines| ==> '\n' !in lines[i] && Trimmed(lines[i])
    ensures Parts(Join(lines, "\n")) == lines
  {
    assert forall i :: 0 <= i < |lines| ==> "\n"[0] !in lines[i];
    SplitJoin(lines, "\n");
    forall i | 0 <= i < |lines| ensures Trim(lines[i]) == lines[i] {
      TrimIdentity(lines[i]);
    }
  }

  /** The five lines of a rendered segment are what the parser splits it into. */
  lemma PartsOfSegment(e: Entry)
    requires WellFormed(e)
    ensures Parts(FormatSegment(e)) == EntryLines(e)
  {
    LinesClean(e);
    PartsOfJoin(EntryLines(e));
  }

  /** parseWorkoutLine reads the five lines of an entry back into its fields. */
  lemma LinesRoundTrip(e: Entry)
    requires WellFormed(e)
    ensures ParseWorkoutLine(EntryLines(e)) == Details(ToBlock(e).(category := ""))
  {
    SetsRepsLine(e);
    QuantityLines(e);
    NameLine(e);
    DetailsOf(EntryLines(e), ToBlock(e).(category := ""));
  }

  /** parseWorkoutLine on parts whose fields read as the ones of `b`. */
  lemma DetailsOf(parts: seq<string>, b: Block)
    requires |parts| >= 5 && |Split(parts[2], "sets")| >= 2 && b.category == ""
    requires Trim(Substring1(parts[1])) == b.workoutName
    requires ParseInt(Field(parts[2], "sets")) == b.sets
    requires ParseInt(Field(Split(parts[2], "sets")[1], "reps")) == b.reps
    requires ParseFloat(Field(parts[3], "kg")) == b.weight
    requires ParseFloat(Field(parts[4], "min")) == b.duration
    ensures ParseWorkoutLine(parts) == Details(b)
  {
  }

  /** The sets and reps of an entry are read back from its third line. */
  lemma SetsRepsLine(e: Entry)
    ensures var line := EntryLines(e)[2];
      |Split(line, "sets")| >= 2
      && ParseInt(Field(line, "sets")) == Some(e.sets)
      && ParseInt(Field(Split(line, "sets")[1], "reps")) == Some(e.reps)
  {
    var s1, s2 := NatToString(e.sets), NatToString(e.reps);
    var line := ("-" + s1 + " ") + "sets" + (("X" + s2 + " ") + "reps");
    assert EntryLines(e)[2] == line;
    SetsRepsDigits(s1, s2);
    assert DigitsValue(s1, false) == e.sets && DigitsValue(s2, false) == e.reps;
  }

  /** Its weight and duration from the fourth and fifth. */
  lemma QuantityLines(e: Entry)
    ensures ParseFloat(Field(EntryLines(e)[3], "kg")) == Finite(e.weight as real)
    ensures ParseFloat(Field(EntryLines(e)[4], "min")) == Finite(e.duration as real)
  {
    QuantityDigits(NatToString(e.weight), "kg");
    QuantityDigits(NatToString(e.duration), "min");
  }

  /** Its name from the second. */
  lemma NameLine(e: Entry)
    requires WellFormed(e)
    ensures Trim(Substring1(EntryLines(e)[1])) == e.name
  {
    assert Substring1(EntryLines(e)[1]) == e.name;
    TrimIdentity(e.name);
  }

  /** Every well-formed entry, rendered as a segment, parses back to its block. */
  lemma SegmentRoundTrip(e: Entry)
    requires WellFormed(e)
    ensures ParseSegment(FormatSegment(e)) == Good(ToBlock(e))
  {
    PartsOfSegment(e);
    SegmentEnds(e);
    LinesRoundTrip(e);
    CategoryLine(e);
    GoodOf(FormatSegment(e), ToBlock(e));
  }

  /** The category of an entry is read back from its first line. */
  lemma CategoryLine(e: Entry)
    requires WellFormed(e)
    ensures Trim(Substring1(EntryLines(e)[0])) == e.category
  {
    assert Substring1(EntryLines(e)[0]) == e.category;
    TrimIdentity(e.category);
  }

  /** A "#" segment whose parts read as the fields of `b` yields `b`. */
  lemma GoodOf(line: string, b: Block)
    requires StartsWithHash(line) && |Parts(line)| >= 5
    requires ParseWorkoutLine(Parts(line)) == Details(b.(category := ""))
    requires Trim(Substring1(Parts(line)[0])) == b.category
    ensures ParseSegment(line) == Good(b)
  {
  }

  /**
   * No line of a well-formed entry holds a newline or a ";", or has white
   * space at its ends.
   */
  lemma LinesClean(e: Entry)
    requires WellFormed(e)
    ensures forall i :: 0 <= i < |EntryLines(e)| ==> CleanLine(EntryLines(e)[i])
  {
    LabelLinesClean(e);
    SetsRepsEntryLine(e);
    QuantityEntryLines(e);
  }

  /** The category and name lines. */
  lemma LabelLinesClean(e: Entry)
    requires WellFormed(e)
    ensures CleanLine(EntryLines(e)[0]) && CleanLine(EntryLines(e)[1])
  {
    MarkedLine('#', e.category);
    assert EntryLines(e)[0] == ['#'] + e.category;
    MarkedLine('-', e.name);
    assert EntryLines(e)[1] == ['-'] + e.name;
  }

  /** The sets/reps line. */
  lemma SetsRepsEntryLine(e: Entry)
    ensures CleanLine(EntryLines(e)[2])
  {
    var s1, s2 := NatToString(e.sets), NatToString(e.reps);
    SetsRepsLineClean(s1, s2);
    assert EntryLines(e)[2] == ("-" + s1 + " ") + "sets" + (("X" + s2 + " ") + "reps");
  }

  /** The weight and duration lines. */
  lemma QuantityEntryLines(e: Entry)
    ensures CleanLine(EntryLines(e)[3]) && CleanLine(EntryLines(e)[4])
  {
    var s3, s4 := NatToString(e.weight), NatToString(e.duration);
    QuantityLineClean(s3, "kg");
    assert EntryLines(e)[3] == ("-" + s3 + " ") + "kg" + "";
    QuantityLineClean(s4, "min");
    assert EntryLines(e)[4] == ("-" + s4 + " ") + "min" + "";
  }

  /** A rendered segment has no ";". */
  lemma SegmentWithoutSemicolon(e: Entry)
    requires WellFormed(e)
    ensures ';' !in FormatSegment(e)
  {
    LinesClean(e);
    NotInJoin(EntryLines(e), "\n", ';');
  }

  /** A rendered segment starts with "#" and has no white space at its ends. */
  lemma SegmentEnds(e: Entry)
    requires WellFormed(e)
    ensures StartsWithHash(FormatSegment(e)) && Trimmed(FormatSegment(e))
  {
    var lines := EntryLines(e);
    var line := FormatSegment(e);
    JoinEnds(lines, "\n");
    MarkedLine('#', e.category);
    QuantityLineClean(NatToString(e.duration), "min");
    assert line[0] == lines[0][0];
    assert line[|line| - 1] == lines[4][|lines[4]| - 1];
  }

  /** The blocks a list of entries should produce. */
  function ToBlocks(es: seq<Entry>): (bs: seq<Block>)
    ensures |bs| == |es| && forall i :: 0 <= i < |es| ==> bs[i] == ToBlock(es[i])
  {
    seq(|es|, i requires 0 <= i < |es| => ToBlock(es[i]))
  }

  /**
   * A non-empty list of well-formed entries, rendered, split on ";" and
   * trimmed, gives back the rendered segments, every one a category.
   */
  lemma SubmissionSegments(es: seq<Entry>)
    requires |es| >= 1 && forall i :: 0 <= i < |es| ==> WellFormed(es[i])
    ensures var lines := TrimAll(Split(FormatSubmission(es), ";"));
      lines == SegmentTexts(es) && FilterHash(lines) == lines
  {
    var texts := SegmentTexts(es);
    forall i | 0 <= i < |texts| ensures ";"[0] !in texts[i] {
      SegmentWithoutSemicolon(es[i]);
    }
    SplitJoin(texts, ";");
    TrimAllClean(texts, es);
    AllHash(texts);
  }

  /** Trimming leaves rendered segments, all categories, as they are. */
  lemma TrimAllClean(texts: seq<string>, es: seq<Entry>)
    requires texts == SegmentTexts(es) && forall i :: 0 <= i < |es| ==> WellFormed(es[i])
    ensures TrimAll(texts) == texts
    ensures forall i :: 0 <= i < |texts| ==> StartsWithHash(texts[i])
  {
    forall i | 0 <= i < |texts| ensures Trim(texts[i]) == texts[i] && StartsWithHash(texts[i]) {
      SegmentEnds(es[i]);
      TrimIdentity(texts[i]);
    }
  }

  /**
   * A non-empty list of well-formed entries, rendered as a submission, is
   * parsed back into exactly their blocks, in order, with no error.
   */
  lemma SubmissionRoundTrip(es: seq<Entry>)
    requires |es| >= 1 && forall i :: 0 <= i < |es| ==> WellFormed(es[i])
    ensures var lines := TrimAll(Split(FormatSubmission(es), ";"));
      |FilterHash(lines)| == |es| && ParseAll(lines) == ParseOutcome(ToBlocks(es), [], false)
  {
    SubmissionSegments(es);
    SegmentsRoundTrip(es);
    ParseAllGood(SegmentTexts(es), ToBlocks(es));
  }

  /** Every rendered segment parses back to its block. */
  lemma SegmentsRoundTrip(es: seq<Entry>)
    requires forall i :: 0 <= i < |es| ==> WellFormed(es[i])
    ensures forall i :: 0 <= i < |es| ==> ParseSegment(SegmentTexts(es)[i]) == Good(ToBlocks(es)[i])
  {
    forall i | 0 <= i < |es| ensures ParseSegment(SegmentTexts(es)[i]) == Good(ToBlocks(es)[i]) {
      SegmentRoundTrip(es[i]);
    }
  }

  /** Segments that all parse give their blocks, in order, and no error. */
  lemma ParseAllGood(lines: seq<string>, blocks: seq<Block>)
    requires |lines| == |blocks| && forall i :: 0 <= i < |lines| ==> ParseSegment(lines[i]) == Good(blocks[i])
    ensures ParseAll(lines) == ParseOutcome(blocks, [], false)
  {
    var segs := Segments(lines);
    AllGoodBlocks(segs, blocks);
    FoldCorrespondence(segs);
  }
}
