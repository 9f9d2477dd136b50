/**
 * Per-step exercise completion flags: a map from step id to a map from
 * exercise index to a flag, replaced as a whole on every change.
 */
module ExerciseProgress {

  /** Completion flags, by step id and then by exercise index. */
  type Progress = map<string, map<int, bool>>

  /** The flags of one step; a step never written has none. */
  function StepFlags(p: Progress, stepId: string): map<int, bool> {
    if stepId in p then p[stepId] else map[]
  }

  /** `isComplete`: the stored flag, or false when nothing was written. */
  function IsComplete(p: Progress, stepId: string, index: int): (done: bool)
    ensures done ==> stepId in p && index in p[stepId] && p[stepId][index]
    ensures stepId in p && index in p[stepId] ==> done == p[stepId][index]
  {
    index in StepFlags(p, stepId) && StepFlags(p, stepId)[index]
  }

  /** `setCompleted`: writes one flag and keeps every other one. */
  function WithCompleted(p: Progress, stepId: string, index: int, completed: bool): (q: Progress)
    ensures IsComplete(q, stepId, index) == completed
    ensures forall s, k :: s != stepId || k != index ==> IsComplete(q, s, k) == IsComplete(p, s, k)
    ensures q.Keys == p.Keys + {stepId}
  {
    p[stepId := StepFlags(p, stepId)[index := completed]]
  }

  /** `toggleComplete`: flips one flag (an unwritten flag becomes true) and keeps every other one. */
  function Toggled(p: Progress, stepId: string, index: int): (q: Progress)
    ensures IsComplete(q, stepId, index) == !IsComplete(p, stepId, index)
    ensures forall s, k :: s != stepId || k != index ==> IsComplete(q, s, k) == IsComplete(p, s, k)
  {
    p[stepId := StepFlags(p, stepId)[index := !IsComplete(p, stepId, index)]]
  }

  /** Toggling is setting the flag to the opposite of its current value. */
  lemma ToggleIsSet(p: Progress, stepId: string, index: int)
    ensures Toggled(p, stepId, index) == WithCompleted(p, stepId, index, !IsComplete(p, stepId, index))
  {
  }

  /** Toggling the same exercise twice restores every flag as `isComplete` reads it. */
  lemma ToggleTwice(p: Progress, stepId: string, index: int, s: string, k: int)
    ensures IsComplete(Toggled(Toggled(p, stepId, index), stepId, index), s, k) == IsComplete(p, s, k)
  {
    var once := Toggled(p, stepId, index);
    var twice := Toggled(once, stepId, index);
    if s == stepId && k == index {
      assert IsComplete(twice, s, k) == !IsComplete(once, s, k);
    } else {
      assert IsComplete(once, s, k) == IsComplete(p, s, k);
    }
  }

  /** Setting the same flag twice is the same as setting it once. */
  lemma SetIdempotent(p: Progress, stepId: string, index: int, completed: bool)
    ensures WithCompleted(WithCompleted(p, stepId, index, completed), stepId, index, completed)
         == WithCompleted(p, stepId, index, completed)
  {
    var flags := StepFlags(p, stepId)[index := completed];
    assert StepFlags(WithCompleted(p, stepId, index, completed), stepId) == flags;
    assert flags[index := completed] == flags;
  }

  /** The exercise indices of a step whose flag is true. */
  function CompletedIndices(p: Progress, stepId: string): (done: set<int>)
    ensures forall k :: k in done <==> IsComplete(p, stepId, k)
  {
    var flags := StepFlags(p, stepId);
    set k | k in flags && flags[k]
  }

  /** `getCompletedCount`: the number of true flags of the step. */
  function CompletedCount(p: Progress, stepId: string): (n: nat)
    ensures n <= |StepFlags(p, stepId)|
    ensures n == 0 <==> forall k :: !IsComplete(p, stepId, k)
  {
    var flags := StepFlags(p, stepId);
    assert CompletedIndices(p, stepId) <= flags.Keys;
    SubsetCard(CompletedIndices(p, stepId), flags.Keys);
    NoneCompleted(p, stepId);
    |CompletedIndices(p, stepId)|
  }

  lemma NoneCompleted(p: Progress, stepId: string)
    ensures |CompletedIndices(p, stepId)| == 0 <==> forall k :: !IsComplete(p, stepId, k)
  {
    var done := CompletedIndices(p, stepId);
    if |done| != 0 {
      var k := PickMember(done);
      assert IsComplete(p, stepId, k);
    }
  }

  lemma SubsetCard<T>(a: set<T>, b: set<T>)
    requires a <= b
    ensures |a| <= |b|
  {
    assert b == a + (b - a);
  }

  lemma PickMember<T>(a: set<T>) returns (x: T)
    requires |a| != 0
    ensures x in a
  {
    x :| x in a;
  }

  /** Setting a flag moves the step's count by exactly one when the flag changes, and not at all otherwise. */
  lemma CountAfterSet(p: Progress, stepId: string, index: int, completed: bool)
    ensures CompletedCount(WithCompleted(p, stepId, index, completed), stepId)
         == CompletedCount(p, stepId)
            + (if completed && !IsComplete(p, stepId, index) then 1
               else if !completed && IsComplete(p, stepId, index) then -1
               else 0)
  {
    var before := CompletedIndices(p, stepId);
    var after := CompletedIndices(WithCompleted(p, stepId, index, completed), stepId);
    IndicesAfterSet(p, stepId, index, completed);
    if completed {
      assert after == before + {index};
    } else {
      assert after == before - {index};
    }
  }

  /** The completed indices after setting one flag: that index joined or removed, nothing else. */
  lemma IndicesAfterSet(p: Progress, stepId: string, index: int, completed: bool)
    ensures completed ==> CompletedIndices(WithCompleted(p, stepId, index, completed), stepId)
                          == CompletedIndices(p, stepId) + {index}
    ensures !completed ==> CompletedIndices(WithCompleted(p, stepId, index, completed), stepId)
                           == CompletedIndices(p, stepId) - {index}
  {
    var q := WithCompleted(p, stepId, index, completed);
    var before := CompletedIndices(p, stepId);
    var after := CompletedIndices(q, stepId);
    forall k ensures k in after <==> (if completed then k in before + {index} else k in before - {index}) {
      assert k in after <==> IsComplete(q, stepId, k);
    }
  }

  /** Changing one step's flags leaves every other step's count as it was. */
  lemma CountOfOtherStep(p: Progress, stepId: string, index: int, completed: bool, other: string)
    requires other != stepId
    ensures CompletedCount(WithCompleted(p, stepId, index, completed), other) == CompletedCount(p, other)
  {
    assert CompletedIndices(WithCompleted(p, stepId, index, completed), other) == CompletedIndices(p, other);
  }

  /** `getTotalCount`: the number of exercises the caller passes in, unchanged. */
  function TotalCount(totalExercises: int): (n: int)
    ensures n == totalExercises
  {
    totalExercises
  }

  /** What the load effect finds under the storage key. */
  datatype Stored = NothingStored | Unparsable | Parsed(progress: Progress)

  /** The state one mounted hook keeps for the step it was given. */
  class ExerciseProgressHook {
    const stepId: string
    var progress: Progress
    var isLoaded: bool

    constructor(stepId: string)
      ensures this.stepId == stepId && progress == map[] && !isLoaded
    {
      this.stepId := stepId;
      progress := map[];
      isLoaded := false;
    }

    /** The load effect: in a browser, takes the stored progress if it parses and marks the hook loaded. */
    method Load(inBrowser: bool, stored: Stored)
      modifies this
      ensures inBrowser && stored.Parsed? ==> progress == stored.progress
      ensures !(inBrowser && stored.Parsed?) ==> progress == old(progress)
      ensures isLoaded == (old(isLoaded) || inBrowser)
    {
      if inBrowser {
        if stored.Parsed? {
          progress := stored.progress;
        }
        isLoaded := true;
      }
    }

    /** `toggleComplete` on this hook's step. */
    method ToggleComplete(index: int)
      modifies this
      ensures progress == Toggled(old(progress), stepId, index)
      ensures isLoaded == old(isLoaded)
    {
      progress := Toggled(progress, stepId, index);
    }

    /** `setCompleted` on this hook's step. */
    method SetCompleted(index: int, completed: bool)
      modifies this
      ensures progress == WithCompleted(old(progress), stepId, index, completed)
      ensures isLoaded == old(isLoaded)
    {
      progress := WithCompleted(progress, stepId, index, completed);
    }
  }
}
