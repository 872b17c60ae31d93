/**
 * addWorkout as a whole: the emptiness checks, the split on ";", the parse
 * loop and the find-or-create loop, with the response the client receives.
 * The first error handed to `next` is the response; when that happens
 * during the parse loop, the loop and the store loop still run.
 */
module AddWorkout {
  import opened Wrappers
  import opened JsString
  import opened WorkoutParser
  import opened WorkoutStore
  import opened WorkoutText

  datatype Response = Created(workouts: seq<Workout>) | Failed(error: ApiError)

  /**
   * `req.body.workoutString`: absent (undefined), a string, or some other
   * JSON value (a number, a boolean, null, an array or an object), of which
   * only its truthiness matters.
   */
  datatype Body = Absent | Str(text: string) | Other(truthy: bool)

  /** `!workoutString` holds: undefined, the empty string, or a falsy non-string. */
  predicate Falsy(b: Body) {
    match b
    case Absent => true
    case Str(text) => |text| == 0
    case Other(truthy) => !truthy
  }

  /** `workoutString.split(";").map((line) => line.trim())`. */
  function EachWorkout(workoutString: string): (lines: seq<string>)
    ensures |lines| >= 1 && forall i :: 0 <= i < |lines| ==> Trimmed(lines[i])
  {
    var lines := TrimAll(Split(workoutString, ";"));
    assert forall i :: 0 <= i < |lines| ==> Trimmed(lines[i]) by {
      forall i | 0 <= i < |lines| ensures Trimmed(lines[i]) {
        TrimSlice(Split(workoutString, ";")[i]);
      }
    }
    lines
  }

  /**
   * The response and the new store for one submission. A truthy value that
   * is not a string has no `split`: the call throws a TypeError, which the
   * handler's catch passes on.
   */
  function Submit(records: seq<Record>, user: UserId, workoutString: Body, today: int): (Response, seq<Record>)
  {
    match workoutString
    case Absent => (Failed(WorkoutStringMissing), records)
    case Other(truthy) => (Failed(if truthy then SplitNotAFunction else WorkoutStringMissing), records)
    case Str(text) => SubmitText(records, user, text, today)
  }

  /** A submission whose `workoutString` is a string. */
  function SubmitText(records: seq<Record>, user: UserId, workoutString: string, today: int): (Response, seq<Record>)
  {
    if workoutString == "" then (Failed(WorkoutStringMissing), records)
    else
      var eachWorkout := EachWorkout(workoutString);
      if |FilterHash(eachWorkout)| == 0 then (Failed(NoCategories), records)
      else Conclude(records, user, ParseAll(eachWorkout), today)
  }

  /**
   * What follows the parse loop: a thrown TypeError skips the store loop;
   * otherwise every kept block is stored and the first reported error, if
   * any, is the response.
   */
  function Conclude(records: seq<Record>, user: UserId, outcome: ParseOutcome, today: int): (Response, seq<Record>)
    requires outcome.crashed ==> |outcome.errors| > 0
  {
    if outcome.crashed then (Failed(outcome.errors[0]), records)
    else
      var after := UpsertAll(records, user, outcome.blocks, today);
      if |outcome.errors| > 0 then (Failed(outcome.errors[0]), after)
      else (Created(EstimateAll(outcome.blocks)), after)
  }

  /** Past the two emptiness checks, a submission is concluded from its parse. */
  lemma SubmitParsed(records: seq<Record>, user: UserId, workoutString: string, today: int)
    requires workoutString != "" && |FilterHash(EachWorkout(workoutString))| > 0
    ensures Submit(records, user, Str(workoutString), today) == Conclude(records, user, ParseAll(EachWorkout(workoutString)), today)
  {
  }

  /** No segment starts with "#". */
  predicate NoCategory(lines: seq<string>) {
    forall i :: 0 <= i < |lines| ==> !StartsWithHash(lines[i])
  }

  /** The handler, run against the workout collection. */
  method HandleAddWorkout(store: Store, user: UserId, workoutString: Body, today: int) returns (response: Response)
    modifies store
    ensures (response, store.records) == Submit(old(store.records), user, workoutString, today)
  {
    if Falsy(workoutString) {
      return Failed(WorkoutStringMissing);
    }
    if workoutString.Other? {
      return Failed(SplitNotAFunction);
    }
    var eachWorkout := EachWorkout(workoutString.text);
    var categories := FilterHash(eachWorkout);
    if |categories| == 0 {
      return Failed(NoCategories);
    }
    var parsedWorkouts, errors, crashed := ParseEach(eachWorkout);
    if crashed {
      return Failed(errors[0]);
    }
    var workouts := store.UpsertWorkouts(user, parsedWorkouts, today);
    if |errors| > 0 {
      return Failed(errors[0]);
    }
    return Created(workouts);
  }

  // ---------------------------------------------------------------------
  // Properties of a submission

  /**
   * A missing or empty string (or a falsy non-string), a truthy non-string,
   * and a string without a "#" segment are each rejected with their own
   * error and leave the store as it was.
   */
  lemma RejectedUntouched(records: seq<Record>, user: UserId, workoutString: Body, today: int)
    ensures Falsy(workoutString) ==>
      Submit(records, user, workoutString, today) == (Failed(WorkoutStringMissing), records)
    ensures workoutString == Other(true) ==>
      Submit(records, user, workoutString, today) == (Failed(SplitNotAFunction), records)
    ensures workoutString.Str? && workoutString.text != "" && NoCategory(EachWorkout(workoutString.text)) ==>
      Submit(records, user, workoutString, today) == (Failed(NoCategories), records)
  {
  }

  /**
   * A segment whose sets line lacks "sets" throws: the response is the
   * first error reported before or at it and nothing is stored, even for
   * the good segments before it.
   */
  lemma CrashStoresNothing(records: seq<Record>, user: UserId, workoutString: string, today: int, c: nat)
    requires workoutString != ""
    requires c < |EachWorkout(workoutString)| && ParseSegment(EachWorkout(workoutString)[c]).Crash?
    ensures Submit(records, user, Str(workoutString), today).1 == records
    ensures Submit(records, user, Str(workoutString), today).0.Failed?
  {
    var lines := EachWorkout(workoutString);
    var segs := Segments(lines);
    SegmentClassification(lines[c]);
    assert StartsWithHash(lines[c]);
    FirstCrash(segs, c);
    SubmitParsed(records, user, workoutString, today);
  }

  /** When some segment throws, the fold ends crashed. */
  lemma {:induction false} FirstCrash(segs: seq<Segment>, c: nat)
    requires c < |segs| && segs[c].Crash?
    ensures Fold(segs).crashed
    decreases c
  {
    if NoCrash(segs[..c]) {
      FoldCorrespondence(segs);
    } else {
      var j :| 0 <= j < c && segs[..c][j].Crash?;
      assert segs[j] == segs[..c][j];
      FirstCrash(segs, j);
    }
  }

  /**
   * The submission is accepted exactly when every segment parses; the
   * response then lists one workout per segment, in order, each with its
   * calorie estimate.
   */
  lemma CreatedIffAllParsed(records: seq<Record>, user: UserId, workoutString: string, today: int)
    requires workoutString != ""
    ensures var response := Submit(records, user, Str(workoutString), today).0;
      var lines := EachWorkout(workoutString);
      && (response.Created? <==> AllParse(lines))
      && (response.Created? ==> response.workouts == EstimateAll(seq(|lines|, i requires 0 <= i < |lines| => ParseSegment(lines[i]).block)))
  {
    var lines := EachWorkout(workoutString);
    if |FilterHash(lines)| > 0 {
      SubmitParsed(records, user, workoutString, today);
      ConcludeLines(records, user, lines, today);
    } else {
      GoodIsCategory(lines[0]);
    }
  }

  /** Every segment parses. */
  predicate AllParse(lines: seq<string>) {
    forall i :: 0 <= i < |lines| ==> ParseSegment(lines[i]).Good?
  }

  lemma ConcludeLines(records: seq<Record>, user: UserId, lines: seq<string>, today: int)
    ensures var response := Conclude(records, user, ParseAll(lines), today).0;
      && (response.Created? <==> AllParse(lines))
      && (response.Created? ==> response.workouts == EstimateAll(seq(|lines|, i requires 0 <= i < |lines| => ParseSegment(lines[i]).block)))
  {
    var segs := Segments(lines);
    ConcludeCreated(records, user, segs, today);
    var response := Conclude(records, user, Fold(segs), today).0;
    if response.Created? {
      var bs := seq(|lines|, i requires 0 <= i < |lines| => ParseSegment(lines[i]).block);
      assert response.workouts == EstimateAll(bs);
    }
  }

  /** Only a category segment can parse. */
  lemma GoodIsCategory(line: string)
    ensures ParseSegment(line).Good? ==> StartsWithHash(line)
  {
  }

  /** The parse concludes with a success exactly when every segment is good. */
  lemma ConcludeCreated(records: seq<Record>, user: UserId, segs: seq<Segment>, today: int)
    ensures var response := Conclude(records, user, Fold(segs), today).0;
      && (response.Created? <==> forall i :: 0 <= i < |segs| ==> segs[i].Good?)
      && (response.Created? ==>
            (|response.workouts| == |segs|
            && forall i :: 0 <= i < |segs| ==> response.workouts[i] == Estimate(segs[i].block)))
  {
    var outcome := Fold(segs);
    if outcome.errors == [] {
      NoErrorsAllGood(segs);
    }
    if forall i :: 0 <= i < |segs| ==> segs[i].Good? {
      GoodBlocksOfGood(segs);
      FoldCorrespondence(segs);
    }
  }

  /** In a list of good segments the kept blocks are the segments' blocks. */
  lemma {:induction false} GoodBlocksOfGood(segs: seq<Segment>)
    requires forall i :: 0 <= i < |segs| ==> segs[i].Good?
    ensures NoCrash(segs) && |GoodBlocks(segs)| == |segs|
    ensures forall i :: 0 <= i < |segs| ==> GoodBlocks(segs)[i] == segs[i].block
    ensures forall base: nat :: MissingReports(segs, base) == []
    decreases |segs|
  {
    if |segs| > 0 {
      GoodBlocksOfGood(segs[1..]);
      assert forall i :: 1 <= i < |segs| ==> GoodBlocks(segs)[i] == GoodBlocks(segs[1..])[i - 1];
    }
  }

  /**
   * Errors do not make the submission all-or-nothing: a good segment
   * followed by one that is not a category is answered with the error for
   * segment 2, and the good segment's workout is stored all the same.
   */
  lemma ErrorStillStores(records: seq<Record>, user: UserId, e: Entry, stray: string, today: int)
    requires WellFormed(e)
    requires Trimmed(stray) && ';' !in stray && !StartsWithHash(stray)
    ensures var (response, after) := Submit(records, user, Str(FormatSegment(e) + ";" + stray), today);
      && response == Failed(WorkoutMissing(2))
      && after == UpsertAll(records, user, [ToBlock(e)], today)
      && FindKey(after, user, e.name).Some?
  {
    var input := FormatSegment(e) + ";" + stray;
    GoodThenStray(e, stray);
    SubmitParsed(records, user, input, today);
    assert ToBlock(e).workoutName in Names([ToBlock(e)]);
    LastBlockWins(records, user, [ToBlock(e)], today, e.name);
  }

  /** A rendered segment followed by a stray segment parses as one block and a report for segment 2. */
  lemma GoodThenStray(e: Entry, stray: string)
    requires WellFormed(e)
    requires Trimmed(stray) && ';' !in stray && !StartsWithHash(stray)
    ensures var lines := EachWorkout(FormatSegment(e) + ";" + stray);
      && FormatSegment(e) + ";" + stray != ""
      && |FilterHash(lines)| > 0
      && ParseAll(lines) == ParseOutcome([ToBlock(e)], [WorkoutMissing(2)], false)
  {
    var text := FormatSegment(e);
    SegmentRoundTrip(e);
    SegmentWithoutSemicolon(e);
    SegmentEnds(e);
    StraySplit(text, stray);
    GoodThenStrayLines([text, stray], ToBlock(e));
    assert |text + ";" + stray| > 0;
  }

  lemma GoodThenStrayLines(lines: seq<string>, b: Block)
    requires |lines| == 2 && ParseSegment(lines[0]) == Good(b) && !StartsWithHash(lines[1])
    ensures |FilterHash(lines)| > 0
    ensures ParseAll(lines) == ParseOutcome([b], [WorkoutMissing(2)], false)
  {
    GoodIsCategory(lines[0]);
    SegmentClassification(lines[1]);
    var segs := Segments(lines);
    assert segs[0] == Good(b);
    assert segs[1] == Missing;
    FoldPair(segs, b);
  }

  /** A good segment followed by a reported one. */
  lemma FoldPair(segs: seq<Segment>, b: Block)
    requires |segs| == 2 && segs[0] == Good(b) && segs[1] == Missing
    ensures Fold(segs) == ParseOutcome([b], [WorkoutMissing(2)], false)
  {
    var one := segs[..1];
    assert one[..0] == [];
    assert one[0] == Good(b);
    assert Fold(one) == ParseOutcome([b], [], false);
  }

  /** Splitting two segments without ";" on ";". */
  lemma StraySplit(text: string, stray: string)
    requires ';' !in text && Trimmed(text) && ';' !in stray && Trimmed(stray)
    ensures EachWorkout(text + ";" + stray) == [text, stray]
  {
    SplitPair(text, stray);
    TrimAllPair(text, stray);
  }

  lemma SplitPair(text: string, stray: string)
    requires ';' !in text && ';' !in stray
    ensures Split(text + ";" + stray, ";") == [text, stray]
  {
    JoinPair(text, stray);
    SplitJoin([text, stray], ";");
  }

  lemma JoinPair(text: string, stray: string)
    ensures Join([text, stray], ";") == text + ";" + stray
  {
    var pieces := [text, stray];
    assert pieces[1..] == [stray];
  }

  lemma TrimAllPair(text: string, stray: string)
    requires Trimmed(text) && Trimmed(stray)
    ensures TrimAll([text, stray]) == [text, stray]
  {
    TrimAllTrimmed([text, stray]);
  }

  /**
   * Rendering a non-empty list of well-formed workouts and submitting it is
   * accepted with those workouts, in order, and stores them.
   */
  lemma SubmitRoundTrip(records: seq<Record>, user: UserId, es: seq<Entry>, today: int)
    requires |es| >= 1 && forall i :: 0 <= i < |es| ==> WellFormed(es[i])
    ensures Submit(records, user, Str(FormatSubmission(es)), today) ==
      (Created(EstimateAll(ToBlocks(es))), UpsertAll(records, user, ToBlocks(es), today))
  {
    var text := FormatSubmission(es);
    SubmissionRoundTrip(es);
    SubmissionNotEmpty(es);
    assert EachWorkout(text) == TrimAll(Split(text, ";"));
    SubmitParsed(records, user, text, today);
  }

  /** A rendered submission starts with its first segment, so it is not empty. */
  lemma SubmissionNotEmpty(es: seq<Entry>)
    requires |es| >= 1 && WellFormed(es[0])
    ensures FormatSubmission(es) != ""
  {
    var texts := SegmentTexts(es);
    SegmentEnds(es[0]);
    JoinEnds(texts, ";");
    assert |texts[0]| > 0;
  }
}
