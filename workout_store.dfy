/**
 * The workout record store and the find-or-create loop at the end of
 * addWorkout: for every parsed workout, in order, the first record with the
 * same user and workout name is overwritten with $set, or a new record is
 * created.
 */
module WorkoutStore {
  import opened Wrappers
  import opened JsNumber
  import opened Calories
  import opened WorkoutParser

  type UserId = string

  /** A stored workout document; `date` is a day index. */
  datatype Record = Record(
    user: UserId,
    category: string,
    workoutName: string,
    sets: Option<int>,
    reps: Option<int>,
    weight: Num,
    duration: Num,
    caloriesBurned: Option<real>,
    date: int)

  /** A parsed workout with its calorie estimate: what $set writes and what the client gets back. */
  datatype Workout = Workout(block: Block, caloriesBurned: Option<real>)

  /** `workout.caloriesBurned = parseFloat(calculateCaloriesBurnt(workout))`, the same in both branches. */
  function Estimate(b: Block): Workout
  {
    Workout(b, CaloriesBurnt(b.weight, b.duration))
  }

  function EstimateAll(bs: seq<Block>): (ws: seq<Workout>)
    ensures |ws| == |bs| && forall k :: 0 <= k < |bs| ==> ws[k] == Estimate(bs[k])
  {
    seq(|bs|, k requires 0 <= k < |bs| => Estimate(bs[k]))
  }

  predicate HasKey(r: Record, user: UserId, name: string) {
    r.user == user && r.workoutName == name
  }

  /** Workout.findOne({ workoutName, user }): the first record with that key, if there is one. */
  function FindKey(records: seq<Record>, user: UserId, name: string): (r: Option<nat>)
    ensures r.Some? ==> r.value < |records| && HasKey(records[r.value], user, name)
    ensures r.Some? ==> forall i :: 0 <= i < r.value ==> !HasKey(records[i], user, name)
    ensures r.None? <==> forall i :: 0 <= i < |records| ==> !HasKey(records[i], user, name)
    decreases |records|
  {
    if |records| == 0 then None
    else if HasKey(records[0], user, name) then Some(0)
    else match FindKey(records[1..], user, name)
      case None => None
      case Some(k) => Some(k + 1)
  }

  /** The record carries the workout's fields and calories. */
  predicate Carries(r: Record, w: Workout) {
    && r.category == w.block.category
    && r.workoutName == w.block.workoutName
    && r.sets == w.block.sets
    && r.reps == w.block.reps
    && r.weight == w.block.weight
    && r.duration == w.block.duration
    && r.caloriesBurned == w.caloriesBurned
  }

  /** `updateOne({ _id }, { $set: workout })`: the workout's fields are written, user and date stay. */
  function SetFields(r: Record, w: Workout): (r': Record)
    ensures Carries(r', w) && r'.user == r.user && r'.date == r.date
  {
    r.(category := w.block.category, workoutName := w.block.workoutName, sets := w.block.sets,
       reps := w.block.reps, weight := w.block.weight, duration := w.block.duration,
       caloriesBurned := w.caloriesBurned)
  }

  /** `Workout.create({ ...workout, user })`, dated `today`. */
  function NewRecord(user: UserId, w: Workout, today: int): (r: Record)
    ensures Carries(r, w) && r.user == user && r.date == today
  {
    Record(user, w.block.category, w.block.workoutName, w.block.sets, w.block.reps,
           w.block.weight, w.block.duration, w.caloriesBurned, today)
  }

  /** One pass of the for...of loop. */
  function UpsertOne(records: seq<Record>, user: UserId, b: Block, today: int): seq<Record>
  {
    var w := Estimate(b);
    match FindKey(records, user, b.workoutName)
    case Some(i) => records[i := SetFields(records[i], w)]
    case None => records + [NewRecord(user, w, today)]
  }

  /** The store after the loop has handled every block, in order. */
  function UpsertAll(records: seq<Record>, user: UserId, blocks: seq<Block>, today: int): seq<Record>
    decreases |blocks|
  {
    if |blocks| == 0 then records
    else UpsertOne(UpsertAll(records, user, blocks[..|blocks| - 1], today), user, blocks[|blocks| - 1], today)
  }

  /** The workout collection. */
  class Store {
    var records: seq<Record>

    constructor (initial: seq<Record>)
      ensures records == initial
    {
      records := initial;
    }

    method UpdateOne(i: nat, w: Workout)
      requires i < |records|
      modifies this
      ensures records == old(records)[i := SetFields(old(records)[i], w)]
    {
      records := records[i := SetFields(records[i], w)];
    }

    method Create(r: Record)
      modifies this
      ensures records == old(records) + [r]
    {
      records := records + [r];
    }

    /**
     * The find-or-create loop. It returns the parsed workouts with their
     * calories, in order, as addWorkout hands them back to the client.
     */
    method UpsertWorkouts(user: UserId, parsedWorkouts: seq<Block>, today: int) returns (workouts: seq<Workout>)
      modifies this
      ensures records == UpsertAll(old(records), user, parsedWorkouts, today)
      ensures workouts == EstimateAll(parsedWorkouts)
    {
      workouts := [];
      var k := 0;
      while k < |parsedWorkouts|
        invariant k <= |parsedWorkouts|
        invariant records == UpsertAll(old(records), user, parsedWorkouts[..k], today)
        invariant workouts == EstimateAll(parsedWorkouts[..k])
      {
        var workout := parsedWorkouts[k];
        UpsertAllPrefix(old(records), user, parsedWorkouts, k, today);
        ghost var before := records;
        var existingWorkout := FindKey(records, user, workout.workoutName);
        var estimated := Workout(workout, CaloriesBurnt(workout.weight, workout.duration));
        if existingWorkout.Some? {
          UpdateOne(existingWorkout.value, estimated);
        } else {
          Create(NewRecord(user, estimated, today));
        }
        assert records == UpsertOne(before, user, workout, today);
        workouts := workouts + [estimated];
        k := k + 1;
      }
      assert parsedWorkouts[..k] == parsedWorkouts;
    }
  }

  /** One more block of the loop: the prefix of length k + 1. */
  lemma UpsertAllPrefix(records: seq<Record>, user: UserId, blocks: seq<Block>, k: nat, today: int)
    requires k < |blocks|
    ensures UpsertAll(records, user, blocks[..k + 1], today)
         == UpsertOne(UpsertAll(records, user, blocks[..k], today), user, blocks[k], today)
    ensures EstimateAll(blocks[..k + 1]) == EstimateAll(blocks[..k]) + [Estimate(blocks[k])]
  {
    assert blocks[..k + 1][..k] == blocks[..k];
  }

  // ---------------------------------------------------------------------
  // Properties of the loop

  /** The workout names of the blocks. */
  function Names(blocks: seq<Block>): set<string>
  {
    set k | 0 <= k < |blocks| :: blocks[k].workoutName
  }

  /** The last block with the given name: no later block carries that name. */
  function LastNamed(blocks: seq<Block>, name: string): (b: Block)
    requires name in Names(blocks)
    ensures b in blocks && b.workoutName == name
    ensures exists k :: 0 <= k < |blocks| && blocks[k] == b && NoneNamedAfter(blocks, name, k)
    decreases |blocks|
  {
    var n := |blocks|;
    if blocks[n - 1].workoutName == name then
      assert NoneNamedAfter(blocks, name, n - 1);
      blocks[n - 1]
    else
      var front := blocks[..n - 1];
      assert name in Names(front) by {
        var k :| 0 <= k < n && blocks[k].workoutName == name;
        assert front[k] == blocks[k];
      }
      var b := LastNamed(front, name);
      var k :| 0 <= k < |front| && front[k] == b && NoneNamedAfter(front, name, k);
      assert blocks[k] == b;
      assert NoneNamedAfter(blocks, name, k) by {
        forall j | k < j < n ensures blocks[j].workoutName != name {
          if j < n - 1 {
            assert blocks[j] == front[j];
          }
        }
      }
      b
  }

  /** No block after position `k` has the given name. */
  predicate NoneNamedAfter(blocks: seq<Block>, name: string, k: nat) {
    forall j :: k < j < |blocks| ==> blocks[j].workoutName != name
  }

  /** The number of records with a key. */
  function CountKey(records: seq<Record>, user: UserId, name: string): nat
    decreases |records|
  {
    if |records| == 0 then 0
    else CountKey(records[..|records| - 1], user, name) + (if HasKey(records[|records| - 1], user, name) then 1 else 0)
  }

  lemma {:induction false} CountKeyUpdate(records: seq<Record>, i: nat, r: Record, user: UserId, name: string)
    requires i < |records| && r.user == records[i].user && r.workoutName == records[i].workoutName
    ensures CountKey(records[i := r], user, name) == CountKey(records, user, name)
    decreases |records|
  {
    var n := |records|;
    var updated := records[i := r];
    if i < n - 1 {
      assert updated[..n - 1] == records[..n - 1][i := r];
      CountKeyUpdate(records[..n - 1], i, r, user, name);
    } else {
      assert updated[..n - 1] == records[..n - 1];
    }
  }

  lemma CountKeyAppend(records: seq<Record>, r: Record, user: UserId, name: string)
    ensures CountKey(records + [r], user, name) == CountKey(records, user, name) + (if HasKey(r, user, name) then 1 else 0)
  {
    assert (records + [r])[..|records|] == records;
  }

  /** A key that is found has at least one record, and one that is not found has none. */
  lemma {:induction false} CountKeyFound(records: seq<Record>, user: UserId, name: string)
    ensures FindKey(records, user, name).Some? <==> CountKey(records, user, name) > 0
    decreases |records|
  {
    var n := |records|;
    if n > 0 {
      CountKeyFound(records[..n - 1], user, name);
      var front := FindKey(records[..n - 1], user, name);
      if front.Some? {
        assert records[front.value] == records[..n - 1][front.value];
      } else if !HasKey(records[n - 1], user, name) {
        forall i | 0 <= i < n ensures !HasKey(records[i], user, name) {
          if i < n - 1 {
            assert records[..n - 1][i] == records[i];
          }
        }
      }
    }
  }

  /** Overwriting a record with one of the same key leaves every lookup where it was. */
  lemma FindKeyUpdate(records: seq<Record>, i: nat, r: Record, user: UserId, name: string)
    requires i < |records| && r.user == records[i].user && r.workoutName == records[i].workoutName
    ensures FindKey(records[i := r], user, name) == FindKey(records, user, name)
  {
    var updated := records[i := r];
    assert forall j :: 0 <= j < |records| ==> (HasKey(updated[j], user, name) <==> HasKey(records[j], user, name));
    FindKeyUnique(records, updated, user, name);
  }

  /** Two stores with the same keys at the same positions give the same lookups. */
  lemma {:induction false} FindKeyUnique(a: seq<Record>, b: seq<Record>, user: UserId, name: string)
    requires |a| == |b|
    requires forall j :: 0 <= j < |a| ==> (HasKey(a[j], user, name) <==> HasKey(b[j], user, name))
    ensures FindKey(a, user, name) == FindKey(b, user, name)
    decreases |a|
  {
    if |a| > 0 && !HasKey(a[0], user, name) {
      assert forall j :: 0 <= j < |a| - 1 ==> a[1..][j] == a[j + 1] && b[1..][j] == b[j + 1];
      FindKeyUnique(a[1..], b[1..], user, name);
    }
  }

  /** Appending a record changes a lookup only when the key had no record yet. */
  lemma {:induction false} FindKeyAppend(records: seq<Record>, r: Record, user: UserId, name: string)
    ensures FindKey(records + [r], user, name) ==
      if FindKey(records, user, name).Some? then FindKey(records, user, name)
      else if HasKey(r, user, name) then Some(|records|)
      else None
    decreases |records|
  {
    if |records| > 0 {
      assert (records + [r])[0] == records[0];
      if !HasKey(records[0], user, name) {
        assert (records + [r])[1..] == records[1..] + [r];
        FindKeyAppend(records[1..], r, user, name);
      }
    } else {
      assert records + [r] == [r];
    }
  }

  /**
   * What survives one pass: positions, users, dates and names of the old
   * records; records of other keys are untouched; an appended record
   * belongs to the user and is dated today.
   */
  lemma UpsertOneFrame(records: seq<Record>, user: UserId, b: Block, today: int)
    ensures var after := UpsertOne(records, user, b, today);
      && |records| <= |after| <= |records| + 1
      && (forall i :: 0 <= i < |records| ==>
            after[i].user == records[i].user && after[i].date == records[i].date
            && after[i].workoutName == records[i].workoutName)
      && (forall i :: 0 <= i < |records| && !HasKey(records[i], user, b.workoutName) ==> after[i] == records[i])
      && (forall i :: |records| <= i < |after| ==>
            after[i].user == user && after[i].date == today && after[i].workoutName == b.workoutName)
  {
  }

  /**
   * Records belonging to other users, or to names that no block carries,
   * are unchanged; every old record keeps its position, user, date and
   * name; every new record belongs to the user, is dated today and carries
   * a submitted name.
   */
  lemma {:induction false} UpsertFrame(records: seq<Record>, user: UserId, blocks: seq<Block>, today: int)
    ensures var after := UpsertAll(records, user, blocks, today);
      && |records| <= |after|
      && (forall i :: 0 <= i < |records| ==>
            after[i].user == records[i].user && after[i].date == records[i].date
            && after[i].workoutName == records[i].workoutName)
      && (forall i :: 0 <= i < |records| && (records[i].user != user || records[i].workoutName !in Names(blocks)) ==>
            after[i] == records[i])
      && (forall i :: |records| <= i < |after| ==>
            after[i].user == user && after[i].date == today && after[i].workoutName in Names(blocks))
    decreases |blocks|
  {
    var n := |blocks|;
    if n > 0 {
      var front := blocks[..n - 1];
      var b := blocks[n - 1];
      var mid := UpsertAll(records, user, front, today);
      UpsertFrame(records, user, front, today);
      UpsertOneFrame(mid, user, b, today);
      assert forall name :: name in Names(front) ==> name in Names(blocks) by {
        forall name | name in Names(front) ensures name in Names(blocks) {
          var k :| 0 <= k < n - 1 && front[k].workoutName == name;
          assert blocks[k] == front[k];
        }
      }
      assert b.workoutName in Names(blocks) by {
        assert blocks[n - 1] == b;
      }
    }
  }

  /**
   * After the loop every submitted name has a record for the user, and the
   * first such record carries the last block of that name with its calorie
   * estimate: later blocks win, whichever branch wrote the record.
   */
  lemma {:induction false} LastBlockWins(records: seq<Record>, user: UserId, blocks: seq<Block>, today: int, name: string)
    requires name in Names(blocks)
    ensures var after := UpsertAll(records, user, blocks, today);
      && FindKey(after, user, name).Some?
      && Carries(after[FindKey(after, user, name).value], Estimate(LastNamed(blocks, name)))
    decreases |blocks|
  {
    var n := |blocks|;
    var front := blocks[..n - 1];
    var b := blocks[n - 1];
    var mid := UpsertAll(records, user, front, today);
    var after := UpsertOne(mid, user, b, today);
    var w := Estimate(b);
    var found := FindKey(mid, user, b.workoutName);
    if b.workoutName == name {
      if found.Some? {
        FindKeyUpdate(mid, found.value, SetFields(mid[found.value], w), user, name);
      } else {
        FindKeyAppend(mid, NewRecord(user, w, today), user, name);
      }
    } else {
      assert name in Names(front) by {
        var k :| 0 <= k < n && blocks[k].workoutName == name;
        assert k < n - 1;
        assert front[k] == blocks[k];
      }
      LastBlockWins(records, user, front, today, name);
      var i := FindKey(mid, user, name).value;
      if found.Some? {
        FindKeyUpdate(mid, found.value, SetFields(mid[found.value], w), user, name);
        assert found.value != i;
      } else {
        FindKeyAppend(mid, NewRecord(user, w, today), user, name);
      }
    }
  }

  /** The names of a prefix and its last block. */
  lemma NamesSnoc(blocks: seq<Block>)
    requires |blocks| > 0
    ensures Names(blocks) == Names(blocks[..|blocks| - 1]) + {blocks[|blocks| - 1].workoutName}
  {
    var n := |blocks|;
    var front := blocks[..n - 1];
    forall x | x in Names(blocks) ensures x in Names(front) + {blocks[n - 1].workoutName} {
      var k :| 0 <= k < n && blocks[k].workoutName == x;
      if k < n - 1 { assert front[k] == blocks[k]; }
    }
    forall x | x in Names(front) ensures x in Names(blocks) {
      var k :| 0 <= k < n - 1 && front[k].workoutName == x;
      assert blocks[k] == front[k];
    }
  }

  /** One pass creates a record only for its own key, and only when that key had none. */
  lemma CountKeyUpsertOne(records: seq<Record>, user: UserId, b: Block, today: int, u: UserId, name: string)
    ensures CountKey(UpsertOne(records, user, b, today), u, name) ==
      if CountKey(records, u, name) > 0 || u != user || name != b.workoutName then CountKey(records, u, name)
      else 1
  {
    var w := Estimate(b);
    var found := FindKey(records, user, b.workoutName);
    CountKeyFound(records, user, b.workoutName);
    if found.Some? {
      CountKeyUpdate(records, found.value, SetFields(records[found.value], w), u, name);
    } else {
      CountKeyAppend(records, NewRecord(user, w, today), u, name);
    }
  }

  /**
   * The loop never duplicates a key: a key that had records keeps exactly
   * as many, a submitted name without a record gets exactly one, and every
   * other key keeps its count (zero or more).
   */
  lemma {:induction false} NoDuplicateCreated(records: seq<Record>, user: UserId, blocks: seq<Block>, today: int, u: UserId, name: string)
    ensures CountKey(UpsertAll(records, user, blocks, today), u, name) ==
      if CountKey(records, u, name) > 0 || u != user || name !in Names(blocks) then CountKey(records, u, name)
      else 1
    decreases |blocks|
  {
    var n := |blocks|;
    if n > 0 {
      var front := blocks[..n - 1];
      var mid := UpsertAll(records, user, front, today);
      NoDuplicateCreated(records, user, front, today, u, name);
      NamesSnoc(blocks);
      CountKeyUpsertOne(mid, user, blocks[n - 1], today, u, name);
    }
  }
}
