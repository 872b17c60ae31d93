/**
 * The workout-string parser of addWorkout: the per-segment callback of its
 * forEach loop, parseWorkoutLine, and the loop itself.
 *
 * A submission is split on ";" and every segment trimmed. A segment must
 * start with "#"; it is split on newlines into trimmed parts:
 *   #<category>
 *   <marker><name>
 *   <marker><sets>sets<marker><reps>reps
 *   <marker><weight>kg
 *   <marker><duration>min
 * where each <marker> is any single code point that substring(1) drops.
 */
module WorkoutParser {
  import opened Wrappers
  import opened JsString
  import opened JsNumber

  /** One parsed workout (an element of parsedWorkouts before calories are added). */
  datatype Block = Block(
    category: string,
    workoutName: string,
    sets: Option<int>,
    reps: Option<int>,
    weight: Num,
    duration: Num)

  /** What parseWorkoutLine gives back: null, the details object, or the TypeError it throws. */
  datatype LineResult = Null | Details(block: Block) | Throws

  /** The errors addWorkout reports; the messages are given by Message. */
  datatype ApiError =
    | WorkoutStringMissing
    | NoCategories
    | WorkoutMissing(ordinal: nat)
    | TypeError
    | SplitNotAFunction

  function Message(e: ApiError): string
  {
    match e
    case WorkoutStringMissing => "Workout string is missing"
    case NoCategories => "No categories found in workout string"
    case WorkoutMissing(k) => "Workout string is missing for " + NatToString(k) + "th workout"
    case TypeError => "Cannot read properties of undefined (reading 'split')"
    case SplitNotAFunction => "workoutString.split is not a function"
  }

  /** The text before the first `unit`, without its first code point, trimmed. */
  function Field(part: string, unit: string): string
    requires |unit| > 0
  {
    Trim(Substring1(Split(part, unit)[0]))
  }

  /**
   * parseWorkoutLine. With at least five parts it never returns null; it
   * throws exactly when the third part has no "sets" (split("sets")[1] is
   * then undefined). The name is the second part without its first code
   * point; sets, reps, weight and duration are read from the text before
   * "sets", between "sets" and "reps", before "kg" and before "min". For the
   * reps the code point right after "sets" is the one dropped.
   */
  function ParseWorkoutLine(parts: seq<string>): (r: LineResult)
    ensures r.Null? <==> |parts| < 5
    ensures r.Throws? <==> |parts| >= 5 && !Contains(parts[2], "sets")
  {
    if |parts| >= 5 then
      var pieces := Split(parts[2], "sets");
      if |pieces| < 2 then Throws
      else
        Details(Block(
          "",
          Trim(Substring1(parts[1])),
          ParseInt(Field(parts[2], "sets")),
          ParseInt(Field(pieces[1], "reps")),
          ParseFloat(Field(parts[3], "kg")),
          ParseFloat(Field(parts[4], "min"))))
    else Null
  }

  /** `line.split("\n").map((part) => part.trim())`. */
  function Parts(line: string): seq<string>
  {
    TrimAll(Split(line, "\n"))
  }

  /** What one segment contributes: a block, a "missing" report, or a thrown TypeError. */
  datatype Segment = Good(block: Block) | Missing | Crash

  /** The forEach callback on one segment: what it contributes. */
  function ParseSegment(line: string): Segment
  {
    if StartsWithHash(line) then
      var parts := Parts(line);
      if |parts| < 5 then Missing
      else
        match ParseWorkoutLine(parts)
        case Throws => Crash
        case Details(d) => Good(d.(category := Trim(Substring1(parts[0]))))
    else Missing
  }

  /**
   * A segment yields a block exactly when it starts with "#", has at least
   * five parts and its third part contains "sets"; it throws when only the
   * last condition fails; every other segment is reported missing. The
   * block is parseWorkoutLine's details with the category set to the first
   * part without its "#", trimmed.
   */
  lemma SegmentClassification(line: string)
    ensures ParseSegment(line).Good? <==>
      StartsWithHash(line) && |Parts(line)| >= 5 && Contains(Parts(line)[2], "sets")
    ensures ParseSegment(line).Crash? <==>
      StartsWithHash(line) && |Parts(line)| >= 5 && !Contains(Parts(line)[2], "sets")
    ensures ParseSegment(line).Missing? <==> !StartsWithHash(line) || |Parts(line)| < 5
    ensures ParseSegment(line).Good? ==>
      (ParseSegment(line).block.category == Trim(Substring1(Parts(line)[0]))
       && ParseWorkoutLine(Parts(line)) == Details(ParseSegment(line).block.(category := "")))
  {
  }

  /** What every segment contributes, in input order. */
  function Segments(lines: seq<string>): (segs: seq<Segment>)
    ensures |segs| == |lines|
    ensures forall i :: 0 <= i < |lines| ==> segs[i] == ParseSegment(lines[i])
  {
    seq(|lines|, i requires 0 <= i < |lines| => ParseSegment(lines[i]))
  }

  /** What the forEach loop leaves behind: parsedWorkouts, the errors passed to next, and whether it threw. */
  datatype ParseOutcome = ParseOutcome(blocks: seq<Block>, errors: seq<ApiError>, crashed: bool)

  /**
   * The forEach loop after the first |segs| segments. A reported segment
   * does not stop the loop (its `return next(...)` only leaves the
   * callback); a thrown TypeError does.
   */
  function Fold(segs: seq<Segment>): (r: ParseOutcome)
    ensures r.crashed ==> |r.errors| > 0 && r.errors[|r.errors| - 1] == TypeError
    decreases |segs|
  {
    if |segs| == 0 then ParseOutcome([], [], false)
    else
      var before := Fold(segs[..|segs| - 1]);
      if before.crashed then before
      else
        match segs[|segs| - 1]
        case Good(b) => before.(blocks := before.blocks + [b])
        case Missing => before.(errors := before.errors + [WorkoutMissing(|segs|)])
        case Crash => before.(errors := before.errors + [TypeError], crashed := true)
  }

  /** The forEach loop over all segments of a submission. */
  function ParseAll(lines: seq<string>): ParseOutcome
  {
    Fold(Segments(lines))
  }

  /** Once the loop has thrown, later segments change nothing. */
  lemma {:induction false} CrashIsFinal(segs: seq<Segment>, k: nat)
    requires k <= |segs| && Fold(segs[..k]).crashed
    ensures Fold(segs) == Fold(segs[..k])
    decreases |segs| - k
  {
    if k < |segs| {
      var n := |segs|;
      assert segs[..n - 1][..k] == segs[..k];
      CrashIsFinal(segs[..n - 1], k);
    } else {
      assert segs[..k] == segs;
    }
  }

  /**
   * The forEach loop of addWorkout: `count` is the 1-based position of the
   * current segment, `currentCategory` the category of the last block.
   */
  method ParseEach(eachWorkout: seq<string>) returns (parsedWorkouts: seq<Block>, errors: seq<ApiError>, crashed: bool)
    ensures ParseOutcome(parsedWorkouts, errors, crashed) == ParseAll(eachWorkout)
  {
    ghost var segs := Segments(eachWorkout);
    parsedWorkouts, errors, crashed := [], [], false;
    var currentCategory := "";
    var count := 0;
    while count < |eachWorkout| && !crashed
      invariant count <= |eachWorkout|
      invariant ParseOutcome(parsedWorkouts, errors, crashed) == Fold(segs[..count])
    {
      var line := eachWorkout[count];
      count := count + 1;
      assert segs[..count][..count - 1] == segs[..count - 1];
      assert segs[..count][count - 1] == ParseSegment(line);
      if StartsWithHash(line) {
        var parts := TrimAll(Split(line, "\n"));
        if |parts| < 5 {
          errors := errors + [WorkoutMissing(count)];
        } else {
          currentCategory := Trim(Substring1(parts[0]));
          var workoutDetails := ParseWorkoutLine(parts);
          match workoutDetails
          case Null =>
            // with five parts or more parseWorkoutLine never returns null
            assert false;
          case Throws =>
            errors := errors + [TypeError];
            crashed := true;
          case Details(d) =>
            parsedWorkouts := parsedWorkouts + [d.(category := currentCategory)];
        }
      } else {
        errors := errors + [WorkoutMissing(count)];
      }
    }
    if crashed {
      CrashIsFinal(segs, count);
    } else {
      assert segs[..count] == segs;
    }
  }

  /** The blocks of the good segments, in input order. */
  function GoodBlocks(segs: seq<Segment>): seq<Block>
  {
    if |segs| == 0 then []
    else (if segs[0].Good? then [segs[0].block] else []) + GoodBlocks(segs[1..])
  }

  /** A "missing" report for every reported segment, numbered from `base` + 1. */
  function MissingReports(segs: seq<Segment>, base: nat): seq<ApiError>
  {
    if |segs| == 0 then []
    else (if segs[0].Missing? then [WorkoutMissing(base + 1)] else []) + MissingReports(segs[1..], base + 1)
  }

  predicate NoCrash(segs: seq<Segment>)
  {
    forall i :: 0 <= i < |segs| ==> !segs[i].Crash?
  }

  lemma {:induction false} GoodBlocksSnoc(segs: seq<Segment>, s: Segment)
    ensures GoodBlocks(segs + [s]) == GoodBlocks(segs) + (if s.Good? then [s.block] else [])
    decreases |segs|
  {
    if |segs| == 0 {
      assert segs + [s] == [s];
    } else {
      var t := segs + [s];
      var head := if segs[0].Good? then [segs[0].block] else [];
      assert t[0] == segs[0] && t[1..] == segs[1..] + [s];
      assert GoodBlocks(t) == head + GoodBlocks(segs[1..] + [s]);
      GoodBlocksSnoc(segs[1..], s);
      assert GoodBlocks(segs) == head + GoodBlocks(segs[1..]);
    }
  }

  lemma {:induction false} MissingReportsSnoc(segs: seq<Segment>, s: Segment, base: nat)
    ensures MissingReports(segs + [s], base)
         == MissingReports(segs, base) + (if s.Missing? then [WorkoutMissing(base + |segs| + 1)] else [])
    decreases |segs|
  {
    if |segs| == 0 {
      assert segs + [s] == [s];
    } else {
      var t := segs + [s];
      var head := if segs[0].Missing? then [WorkoutMissing(base + 1)] else [];
      assert t[0] == segs[0] && t[1..] == segs[1..] + [s];
      assert MissingReports(t, base) == head + MissingReports(segs[1..] + [s], base + 1);
      MissingReportsSnoc(segs[1..], s, base + 1);
      assert MissingReports(segs, base) == head + MissingReports(segs[1..], base + 1);
    }
  }

  /**
   * Segment-to-block correspondence. When no segment throws, the loop keeps
   * exactly the blocks of the good segments, in input order, and reports
   * every other segment by its 1-based position. When segment c is the first
   * to throw, the loop has done the same for the segments before c and then
   * adds the TypeError.
   */
  lemma {:induction false} FoldCorrespondence(segs: seq<Segment>)
    ensures NoCrash(segs) ==>
      Fold(segs) == ParseOutcome(GoodBlocks(segs), MissingReports(segs, 0), false)
    ensures forall c :: 0 <= c < |segs| && segs[c].Crash? && NoCrash(segs[..c]) ==>
      Fold(segs) == ParseOutcome(GoodBlocks(segs[..c]), MissingReports(segs[..c], 0) + [TypeError], true)
    decreases |segs|
  {
    if |segs| > 0 {
      var n := |segs|;
      var front := segs[..n - 1];
      var last := segs[n - 1];
      assert front + [last] == segs;
      FoldCorrespondence(front);
      GoodBlocksSnoc(front, last);
      MissingReportsSnoc(front, last, 0);
      if NoCrash(segs) {
        assert NoCrash(front) by {
          forall i | 0 <= i < |front| ensures !front[i].Crash? {
            assert front[i] == segs[i];
          }
        }
      }
      forall c | 0 <= c < n && segs[c].Crash? && NoCrash(segs[..c])
        ensures Fold(segs) == ParseOutcome(GoodBlocks(segs[..c]), MissingReports(segs[..c], 0) + [TypeError], true)
      {
        if c == n - 1 {
          assert segs[..c] == front;
        } else {
          assert front[c] == segs[c];
          assert front[..c] == segs[..c];
        }
      }
    }
  }

  /** Segments that all parse give their blocks and no report. */
  lemma {:induction false} AllGoodBlocks(segs: seq<Segment>, blocks: seq<Block>)
    requires |segs| == |blocks| && forall i :: 0 <= i < |segs| ==> segs[i] == Good(blocks[i])
    ensures NoCrash(segs) && GoodBlocks(segs) == blocks
    ensures forall base: nat :: MissingReports(segs, base) == []
    decreases |segs|
  {
    if |segs| > 0 {
      AllGoodBlocks(segs[1..], blocks[1..]);
      assert [blocks[0]] + blocks[1..] == blocks;
    }
  }

  /** A loop that reported nothing saw only good segments. */
  lemma {:induction false} NoErrorsAllGood(segs: seq<Segment>)
    requires Fold(segs).errors == []
    ensures !Fold(segs).crashed && |Fold(segs).blocks| == |segs|
    ensures forall i :: 0 <= i < |segs| ==> segs[i].Good?
    decreases |segs|
  {
    if |segs| > 0 {
      var n := |segs|;
      NoErrorsAllGood(segs[..n - 1]);
      forall i | 0 <= i < n ensures segs[i].Good? {
        if i < n - 1 {
          assert segs[..n - 1][i] == segs[i];
        }
      }
    }
  }

  /**
   * A submission whose segments are all accepted has one block for every
   * "#" segment.
   */
  lemma EveryCategoryParsed(lines: seq<string>)
    requires ParseAll(lines).errors == []
    ensures !ParseAll(lines).crashed
    ensures |ParseAll(lines).blocks| == |FilterHash(lines)| == |lines|
  {
    var segs := Segments(lines);
    NoErrorsAllGood(segs);
    forall i | 0 <= i < |lines| ensures StartsWithHash(lines[i]) {
      assert segs[i].Good?;
      SegmentClassification(lines[i]);
    }
    AllHash(lines);
  }

  lemma {:induction false} AllHash(lines: seq<string>)
    requires forall i :: 0 <= i < |lines| ==> StartsWithHash(lines[i])
    ensures FilterHash(lines) == lines
    decreases |lines|
  {
    if |lines| > 0 {
      AllHash(lines[1..]);
    }
  }
}
