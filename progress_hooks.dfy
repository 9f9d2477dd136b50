/**
 * The browser-side progress rules: composite ids, the step and lesson
 * toggles over keyed collections, course and lesson counts, the search for
 * the next incomplete step, and the lesson auto-complete decision.
 */
module ProgressHooks {
  import opened Wrappers
  import opened Text
  import opened CourseData

  /** A step's record id: `courseId:itemId:stepId`. */
  function StepId(courseId: string, itemId: string, stepId: string): (id: string)
    ensures id == Join([courseId, itemId, stepId], ":")
  {
    assert [courseId, itemId, stepId][1..] == [itemId, stepId];
    assert [itemId, stepId][1..] == [stepId];
    assert Join([itemId, stepId], ":") == itemId + ":" + stepId;
    courseId + ":" + itemId + ":" + stepId
  }

  /** A lesson's record id: `courseId:itemId`. */
  function LessonId(courseId: string, itemId: string): (id: string)
    ensures id == Join([courseId, itemId], ":")
  {
    assert [courseId, itemId][1..] == [itemId];
    courseId + ":" + itemId
  }

  predicate ColonFree(s: string) {
    !Contains(s, ":")
  }

  /** Splitting a step id on ':' gives back its three ids when none contains ':'. */
  lemma StepIdParts(courseId: string, itemId: string, stepId: string)
    requires ColonFree(courseId) && ColonFree(itemId) && ColonFree(stepId)
    ensures Split(StepId(courseId, itemId, stepId), ":") == [courseId, itemId, stepId]
  {
    SplitJoin([courseId, itemId, stepId], ":");
  }

  /** Splitting a lesson id on ':' gives back its two ids when neither contains ':'. */
  lemma LessonIdParts(courseId: string, itemId: string)
    requires ColonFree(courseId) && ColonFree(itemId)
    ensures Split(LessonId(courseId, itemId), ":") == [courseId, itemId]
  {
    SplitJoin([courseId, itemId], ":");
  }

  /** Colon-free step ids never collide with each other nor with lesson ids. */
  lemma IdsDistinct(c1: string, i1: string, s1: string, c2: string, i2: string, s2: string, c3: string, i3: string)
    requires ColonFree(c1) && ColonFree(i1) && ColonFree(s1)
    requires ColonFree(c2) && ColonFree(i2) && ColonFree(s2)
    requires ColonFree(c3) && ColonFree(i3)
    ensures StepId(c1, i1, s1) == StepId(c2, i2, s2) ==> c1 == c2 && i1 == i2 && s1 == s2
    ensures StepId(c1, i1, s1) != LessonId(c3, i3)
  {
    StepIdParts(c1, i1, s1);
    StepIdParts(c2, i2, s2);
    LessonIdParts(c3, i3);
  }

  datatype StepProgress = StepProgress(id: string, courseId: string, itemId: string, stepId: string,
                                       completed: bool, completedAt: Option<int>)

  datatype LessonProgress = LessonProgress(id: string, courseId: string, itemId: string,
                                           completed: bool, manuallySet: bool, completedAt: Option<int>)

  /** The hook's `isComplete` for a step: its record says completed; no record reads as false. */
  function StepDone(steps: map<string, StepProgress>, courseId: string, itemId: string, stepId: string): bool {
    var id := StepId(courseId, itemId, stepId);
    id in steps && steps[id].completed
  }

  /** The hook's `isComplete` for a lesson. */
  function LessonDone(lessons: map<string, LessonProgress>, courseId: string, itemId: string): bool {
    var id := LessonId(courseId, itemId);
    id in lessons && lessons[id].completed
  }

  /** The hook's `manuallySet` for a lesson; no record reads as false. */
  function LessonManual(lessons: map<string, LessonProgress>, courseId: string, itemId: string): bool {
    var id := LessonId(courseId, itemId);
    id in lessons && lessons[id].manuallySet
  }

  /** The record a step completion inserts. */
  function CompletedStep(courseId: string, itemId: string, stepId: string, now: int): StepProgress {
    StepProgress(StepId(courseId, itemId, stepId), courseId, itemId, stepId, true, Some(now))
  }

  /** Step `toggle`: a completed step's record is deleted, otherwise a completed record is inserted. */
  function ToggledSteps(steps: map<string, StepProgress>, courseId: string, itemId: string, stepId: string, now: int)
    : (after: map<string, StepProgress>)
    ensures StepDone(after, courseId, itemId, stepId) == !StepDone(steps, courseId, itemId, stepId)
    ensures StepDone(steps, courseId, itemId, stepId) ==> StepId(courseId, itemId, stepId) !in after
    ensures forall k :: k != StepId(courseId, itemId, stepId) ==> (k in after <==> k in steps)
    ensures forall k :: k != StepId(courseId, itemId, stepId) && k in after ==> after[k] == steps[k]
  {
    var id := StepId(courseId, itemId, stepId);
    if StepDone(steps, courseId, itemId, stepId) then steps - {id}
    else steps[id := CompletedStep(courseId, itemId, stepId, now)]
  }

  /** Step `markComplete`: inserts a completed record unless the step is already complete. */
  function MarkedSteps(steps: map<string, StepProgress>, courseId: string, itemId: string, stepId: string, now: int)
    : (after: map<string, StepProgress>)
    ensures StepDone(after, courseId, itemId, stepId)
    ensures StepDone(steps, courseId, itemId, stepId) ==> after == steps
    ensures forall k :: k != StepId(courseId, itemId, stepId) ==> (k in after <==> k in steps)
    ensures forall k :: k != StepId(courseId, itemId, stepId) && k in after ==> after[k] == steps[k]
  {
    if StepDone(steps, courseId, itemId, stepId) then steps
    else steps[StepId(courseId, itemId, stepId) := CompletedStep(courseId, itemId, stepId, now)]
  }

  /** From a step with no record, two toggles restore the collection exactly. */
  lemma ToggleTwiceFromAbsent(steps: map<string, StepProgress>, courseId: string, itemId: string, stepId: string, t1: int, t2: int)
    requires StepId(courseId, itemId, stepId) !in steps
    ensures ToggledSteps(ToggledSteps(steps, courseId, itemId, stepId, t1), courseId, itemId, stepId, t2) == steps
  {
    var id := StepId(courseId, itemId, stepId);
    assert steps[id := CompletedStep(courseId, itemId, stepId, t1)] - {id} == steps;
  }

  /** Marking a step complete a second time changes nothing. */
  lemma MarkCompleteIdempotent(steps: map<string, StepProgress>, courseId: string, itemId: string, stepId: string, t1: int, t2: int)
    ensures MarkedSteps(MarkedSteps(steps, courseId, itemId, stepId, t1), courseId, itemId, stepId, t2)
         == MarkedSteps(steps, courseId, itemId, stepId, t1)
  {
  }

  /** Lesson `toggle`: a completed lesson's record is deleted, otherwise one marked manual is inserted. */
  function ToggledLessons(lessons: map<string, LessonProgress>, courseId: string, itemId: string, now: int)
    : (after: map<string, LessonProgress>)
    ensures LessonDone(after, courseId, itemId) == !LessonDone(lessons, courseId, itemId)
    ensures !LessonDone(lessons, courseId, itemId) ==> LessonManual(after, courseId, itemId)
    ensures LessonDone(lessons, courseId, itemId) ==> LessonId(courseId, itemId) !in after
    ensures !LessonDone(lessons, courseId, itemId) ==>
      var id := LessonId(courseId, itemId);
      id in after && after[id] == LessonProgress(id, courseId, itemId, true, true, Some(now))
    ensures forall k :: k != LessonId(courseId, itemId) ==> (k in after <==> k in lessons)
    ensures forall k :: k != LessonId(courseId, itemId) && k in after ==> after[k] == lessons[k]
  {
    var id := LessonId(courseId, itemId);
    if LessonDone(lessons, courseId, itemId) then lessons - {id}
    else lessons[id := LessonProgress(id, courseId, itemId, true, true, Some(now))]
  }

  /** From a lesson with no record, two toggles restore the collection exactly. */
  lemma ToggleLessonTwiceFromAbsent(lessons: map<string, LessonProgress>, courseId: string, itemId: string, t1: int, t2: int)
    requires LessonId(courseId, itemId) !in lessons
    ensures ToggledLessons(ToggledLessons(lessons, courseId, itemId, t1), courseId, itemId, t2) == lessons
  {
    var id := LessonId(courseId, itemId);
    assert lessons[id := LessonProgress(id, courseId, itemId, true, true, Some(t1))] - {id} == lessons;
  }

  /** What the auto-complete effect does to a lesson's record. */
  datatype LessonAction = InsertAuto | DeleteRecord | KeepRecord

  /**
   * The auto-complete decision, from the number of step records the live
   * query returned for the lesson, the lesson's step total and its record.
   */
  function AutoDecision(completedCount: nat, totalSteps: int, lesson: Option<LessonProgress>): (action: LessonAction)
    ensures lesson.Some? && lesson.value.manuallySet ==> action == KeepRecord
    ensures action == InsertAuto <==>
              completedCount == totalSteps && totalSteps > 0 && !(lesson.Some? && lesson.value.manuallySet)
    ensures action == DeleteRecord ==> completedCount != totalSteps && lesson.Some? && lesson.value.completed
    ensures completedCount != totalSteps && lesson.Some? && lesson.value.completed && !lesson.value.manuallySet
            ==> action == DeleteRecord
  {
    var allStepsComplete := completedCount == totalSteps;
    var manual := lesson.Some? && lesson.value.manuallySet;
    if allStepsComplete && totalSteps > 0 && !manual then InsertAuto
    else if !allStepsComplete && lesson.Some? && lesson.value.completed && !manual then DeleteRecord
    else KeepRecord
  }

  /** The lesson records after the effect has acted on its decision. */
  function AfterAuto(lessons: map<string, LessonProgress>, courseId: string, itemId: string,
                     completedCount: nat, totalSteps: int, now: int): (after: map<string, LessonProgress>)
    ensures var id := LessonId(courseId, itemId);
      var action := AutoDecision(completedCount, totalSteps, if id in lessons then Some(lessons[id]) else None);
      && (action == InsertAuto ==> id in after && after[id] == LessonProgress(id, courseId, itemId, true, false, Some(now)))
      && (action == DeleteRecord ==> id !in after)
      && (action == KeepRecord ==> after == lessons)
      && (forall k :: k != id ==> (k in after <==> k in lessons))
      && (forall k :: k != id && k in after ==> after[k] == lessons[k])
  {
    var id := LessonId(courseId, itemId);
    var lesson := if id in lessons then Some(lessons[id]) else None;
    match AutoDecision(completedCount, totalSteps, lesson)
    case InsertAuto => lessons[id := LessonProgress(id, courseId, itemId, true, false, Some(now))]
    case DeleteRecord => lessons - {id}
    case KeepRecord => lessons
  }

  /**
   * Once the effect has acted, running it again with the same counts leaves
   * the lesson's state as it was: a deleted record stays deleted, and an
   * inserted one is written again with only `completedAt` moved to the new
   * time.
   */
  lemma AutoSettles(lessons: map<string, LessonProgress>, courseId: string, itemId: string,
                    completedCount: nat, totalSteps: int, t1: int, t2: int)
    ensures var once := AfterAuto(lessons, courseId, itemId, completedCount, totalSteps, t1);
            var twice := AfterAuto(once, courseId, itemId, completedCount, totalSteps, t2);
            && twice.Keys == once.Keys
            && (forall k :: k in once && k != LessonId(courseId, itemId) ==> twice[k] == once[k])
            && LessonDone(twice, courseId, itemId) == LessonDone(once, courseId, itemId)
            && LessonManual(twice, courseId, itemId) == LessonManual(once, courseId, itemId)
            && (LessonId(courseId, itemId) in once ==>
                  twice[LessonId(courseId, itemId)] == once[LessonId(courseId, itemId)].(completedAt := twice[LessonId(courseId, itemId)].completedAt))
  {
  }

  /** A lesson the user toggled is never completed or un-completed by the effect. */
  lemma ManualLessonUntouched(lessons: map<string, LessonProgress>, courseId: string, itemId: string,
                              completedCount: nat, totalSteps: int, now: int)
    requires LessonManual(lessons, courseId, itemId)
    ensures AfterAuto(lessons, courseId, itemId, completedCount, totalSteps, now) == lessons
  {
  }

  /** The step and lesson progress collections the hooks read and write. */
  class ProgressCollections {
    var steps: map<string, StepProgress>
    var lessons: map<string, LessonProgress>

    constructor()
      ensures steps == map[] && lessons == map[]
    {
      steps := map[];
      lessons := map[];
    }

    /** The live query of `useAutoLessonComplete`: the step records of one lesson, completed or not. */
    function LessonStepRecords(courseId: string, itemId: string): (ids: set<string>)
      reads this
      ensures ids <= steps.Keys
      ensures forall k :: k in ids <==> k in steps && steps[k].courseId == courseId && steps[k].itemId == itemId
    {
      set k | k in steps && steps[k].courseId == courseId && steps[k].itemId == itemId
    }

    method ToggleStep(courseId: string, itemId: string, stepId: string, now: int)
      modifies this
      ensures steps == ToggledSteps(old(steps), courseId, itemId, stepId, now)
      ensures lessons == old(lessons)
    {
      var id := StepId(courseId, itemId, stepId);
      if StepDone(steps, courseId, itemId, stepId) {
        steps := steps - {id};
      } else {
        steps := steps[id := CompletedStep(courseId, itemId, stepId, now)];
      }
    }

    method MarkStepComplete(courseId: string, itemId: string, stepId: string, now: int)
      modifies this
      ensures steps == MarkedSteps(old(steps), courseId, itemId, stepId, now)
      ensures lessons == old(lessons)
    {
      if !StepDone(steps, courseId, itemId, stepId) {
        steps := steps[StepId(courseId, itemId, stepId) := CompletedStep(courseId, itemId, stepId, now)];
      }
    }

    method ToggleLesson(courseId: string, itemId: string, now: int)
      modifies this
      ensures lessons == ToggledLessons(old(lessons), courseId, itemId, now)
      ensures steps == old(steps)
    {
      var id := LessonId(courseId, itemId);
      if LessonDone(lessons, courseId, itemId) {
        lessons := lessons - {id};
      } else {
        lessons := lessons[id := LessonProgress(id, courseId, itemId, true, true, Some(now))];
      }
    }

    /** One run of the auto-complete effect for a lesson with `totalSteps` steps. */
    method AutoLessonComplete(courseId: string, itemId: string, totalSteps: int, now: int)
      modifies this
      ensures lessons == AfterAuto(old(lessons), courseId, itemId, |old(LessonStepRecords(courseId, itemId))|, totalSteps, now)
      ensures steps == old(steps)
    {
      var completedCount := |LessonStepRecords(courseId, itemId)|;
      var id := LessonId(courseId, itemId);
      var lesson := if id in lessons then Some(lessons[id]) else None;
      var action := AutoDecision(completedCount, totalSteps, lesson);
      if action == InsertAuto {
        lessons := lessons[id := LessonProgress(id, courseId, itemId, true, false, Some(now))];
      } else if action == DeleteRecord {
        lessons := lessons - {id};
      }
    }
  }

  /** `totalSteps`: the number of steps over all items, summed left to right. */
  function TotalSteps(items: seq<CourseItem>): nat
    decreases |items|
  {
    if items == [] then 0 else TotalSteps(items[..|items| - 1]) + |items[|items| - 1].steps|
  }

  /** Round-half-up of 100 * completed / total, and 0 for an empty course. */
  function Percentage(completed: nat, total: nat): (p: nat)
    ensures total == 0 ==> p == 0
    ensures total > 0 ==> -(total as int) <= 200 * completed - 2 * total * p < total
    ensures completed <= total ==> p <= 100
    ensures total > 0 && completed == total ==> p == 100
    ensures completed == 0 ==> p == 0
  {
    if total == 0 then 0
    else
      var p := (200 * completed + total) / (2 * total);
      PercentageBounds(completed, total, p);
      p
  }

  lemma PercentageBounds(completed: nat, total: nat, p: nat)
    requires total > 0 && p == (200 * completed + total) / (2 * total)
    ensures -(total as int) <= 200 * completed - 2 * total * p < total
    ensures completed <= total ==> p <= 100
    ensures completed == total ==> p == 100
    ensures completed == 0 ==> p == 0
  {
    var n := 200 * completed + total;
    var d := 2 * total;
    assert d * p <= n < d * p + d;
    if completed <= total {
      assert d * p < d * 101;
      LessByFactor(d, p, 101);
    }
    if completed == total {
      assert n == d * 100 + total;
      assert d * 99 < d * p;
      LessByFactor(d, 99, p);
    }
    if completed == 0 {
      assert n == total;
    }
  }

  lemma LessByFactor(d: nat, a: nat, b: nat)
    requires d > 0 && d * a < d * b
    ensures a < b
  {
    assert d * (b - a) == d * b - d * a;
  }

  /** What `useCourseProgress` returns. */
  datatype CourseStats = CourseStats(percentage: nat, completedCount: nat, totalSteps: nat)

  /** `useCourseProgress`, given how many step records the course has. */
  function CourseProgress(course: Course, completedCount: nat): (stats: CourseStats)
    ensures stats.totalSteps == TotalSteps(course.items) && stats.completedCount == completedCount
    ensures completedCount <= stats.totalSteps ==> stats.percentage <= 100
    ensures stats.totalSteps == 0 ==> stats.percentage == 0
  {
    var total := TotalSteps(course.items);
    CourseStats(Percentage(completedCount, total), completedCount, total)
  }

  /** The number of `steps` of item `itemId` whose step id is among the completed ids. */
  function CountDone(courseId: string, itemId: string, steps: seq<Step>, done: set<string>): (n: nat)
    ensures n <= |steps|
    ensures n == |steps| <==> forall k :: 0 <= k < |steps| ==> StepId(courseId, itemId, steps[k].id) in done
    ensures n == 0 <==> forall k :: 0 <= k < |steps| ==> StepId(courseId, itemId, steps[k].id) !in done
    decreases |steps|
  {
    if steps == [] then 0
    else
      var rest := CountDone(courseId, itemId, steps[1..], done);
      assert forall k :: 1 <= k < |steps| ==> steps[k] == steps[1..][k - 1];
      (if StepId(courseId, itemId, steps[0].id) in done then 1 else 0) + rest
  }

  /** What `getLessonProgress` returns. */
  datatype LessonStats = LessonStats(completed: nat, total: nat, percentage: nat)

  /** `getLessonProgress`, given the ids of the course's completed steps. */
  function LessonProgressOf(courseId: string, item: CourseItem, done: set<string>): (stats: LessonStats)
    ensures stats.total == |item.steps|
    ensures stats.completed <= stats.total && stats.percentage <= 100
    ensures stats.completed == stats.total <==> forall k :: 0 <= k < |item.steps| ==> StepId(courseId, item.id, item.steps[k].id) in done
    ensures stats.total > 0 && stats.completed == stats.total ==> stats.percentage == 100
  {
    var completed := CountDone(courseId, item.id, item.steps, done);
    LessonStats(completed, |item.steps|, Percentage(completed, |item.steps|))
  }

  /**
   * The `forEach` that fills the outline's lookup map: every record is
   * entered under its id, a later record replacing an earlier one.
   */
  method IndexById(records: seq<StepProgress>) returns (index: map<string, StepProgress>)
    ensures forall k :: 0 <= k < |records| ==> records[k].id in index
    ensures forall id :: id in index ==> exists k :: 0 <= k < |records| && records[k] == index[id] && records[k].id == id
    ensures forall id, k :: id in index && 0 <= k < |records| && records[k].id == id ==> LastWith(records, id) == index[id]
  {
    index := map[];
    var i := 0;
    while i < |records|
      invariant 0 <= i <= |records|
      invariant forall k :: 0 <= k < i ==> records[k].id in index
      invariant forall id :: id in index ==> exists k :: 0 <= k < i && records[k] == index[id] && records[k].id == id
      invariant forall id :: id in index ==> LastWith(records[..i], id) == index[id]
    {
      var r := records[i];
      assert records[..i + 1] == records[..i] + [r];
      index := index[r.id := r];
      i := i + 1;
    }
    assert records[..i] == records;
  }

  /** The last record of `records` carrying `id`, if any. */
  function LastWith(records: seq<StepProgress>, id: string): StepProgress
    decreases |records|
  {
    if records == [] then StepProgress(id, "", "", "", false, None)
    else if records[|records| - 1].id == id then records[|records| - 1]
    else LastWith(records[..|records| - 1], id)
  }

  /** A step of the course, named by its item and its own id. */
  datatype StepRef = StepRef(itemId: string, stepId: string)

  /** The steps of one item, in order. */
  function ItemRefs(item: CourseItem): (refs: seq<StepRef>)
    ensures |refs| == |item.steps|
    ensures forall k :: 0 <= k < |refs| ==> refs[k] == StepRef(item.id, item.steps[k].id)
  {
    seq(|item.steps|, k requires 0 <= k < |item.steps| => StepRef(item.id, item.steps[k].id))
  }

  /** Every step of the course in item-then-step order. */
  function Refs(items: seq<CourseItem>): seq<StepRef>
    decreases |items|
  {
    if items == [] then [] else Refs(items[..|items| - 1]) + ItemRefs(items[|items| - 1])
  }

  /** The course's step list has `totalSteps` entries. */
  lemma {:induction false} RefsCount(items: seq<CourseItem>)
    ensures |Refs(items)| == TotalSteps(items)
    decreases |items|
  {
    if items != [] {
      RefsCount(items[..|items| - 1]);
    }
  }

  /** The step list of a longer prefix of the items extends the shorter one's by the next item's steps. */
  lemma RefsStep(items: seq<CourseItem>, i: nat)
    requires i < |items|
    ensures Refs(items[..i + 1]) == Refs(items[..i]) + ItemRefs(items[i])
  {
    assert items[..i + 1][..i] == items[..i];
  }

  /** The step list of a prefix of the items is a prefix of the course's step list. */
  lemma {:induction false} RefsPrefix(items: seq<CourseItem>, i: nat)
    requires i <= |items|
    ensures |Refs(items[..i])| <= |Refs(items)|
    ensures Refs(items[..i]) == Refs(items)[..|Refs(items[..i])|]
    decreases |items| - i
  {
    if i < |items| {
      RefsPrefix(items, i + 1);
      RefsStep(items, i);
    } else {
      assert items[..i] == items;
    }
  }

  /** The step is recorded as completed. */
  predicate RefDone(courseId: string, done: set<string>, r: StepRef) {
    StepId(courseId, r.itemId, r.stepId) in done
  }

  /** Every step of `refs` is recorded as completed. */
  predicate AllDone(courseId: string, done: set<string>, refs: seq<StepRef>) {
    forall k :: 0 <= k < |refs| ==> RefDone(courseId, done, refs[k])
  }

  /** The first step of `refs` not completed, if any. */
  function FirstPending(courseId: string, refs: seq<StepRef>, done: set<string>): (r: Option<StepRef>)
    ensures r.None? <==> AllDone(courseId, done, refs)
    ensures r.Some? ==> !RefDone(courseId, done, r.value)
    decreases |refs|
  {
    if refs == [] then None
    else if !RefDone(courseId, done, refs[0]) then Some(refs[0])
    else
      assert forall k :: 1 <= k < |refs| ==> refs[k] == refs[1..][k - 1];
      FirstPending(courseId, refs[1..], done)
  }

  /** The first pending step is the one at the first index whose step is not done. */
  lemma {:induction false} FirstPendingAt(courseId: string, refs: seq<StepRef>, done: set<string>, k: nat)
    requires k < |refs| && !RefDone(courseId, done, refs[k])
    requires forall j :: 0 <= j < k ==> RefDone(courseId, done, refs[j])
    ensures FirstPending(courseId, refs, done) == Some(refs[k])
    decreases k
  {
    if k > 0 {
      FirstPendingAt(courseId, refs[1..], done, k - 1);
    }
  }

  /**
   * `useNextIncompleteStep` as specified: the first step not completed in
   * item-then-step order; when every step is completed, the first item's
   * first step; and none when that does not exist either.
   */
  function NextIncomplete(courseId: string, items: seq<CourseItem>, done: set<string>): Option<StepRef> {
    var pending := FirstPending(courseId, Refs(items), done);
    if pending.Some? then pending
    else if |items| > 0 && |items[0].steps| > 0 then Some(StepRef(items[0].id, items[0].steps[0].id))
    else None
  }

  /** It returns nothing exactly when every step is completed and the first item has no steps (or there is none). */
  lemma NextIncompleteNone(courseId: string, items: seq<CourseItem>, done: set<string>)
    ensures NextIncomplete(courseId, items, done).None? <==>
              AllDone(courseId, done, Refs(items))
              && (items == [] || items[0].steps == [])
  {
    var pending := FirstPending(courseId, Refs(items), done);
    assert pending.None? <==> AllDone(courseId, done, Refs(items));
  }

  /**
   * The nested loops of `useNextIncompleteStep`: item by item, step by
   * step, returning the first step whose id is not among the completed ones.
   */
  method NextIncompleteStep(courseId: string, course: Course, done: set<string>) returns (next: Option<StepRef>)
    ensures next == NextIncomplete(courseId, course.items, done)
  {
    var items := course.items;
    var i := 0;
    while i < |items|
      invariant 0 <= i <= |items|
      invariant AllDone(courseId, done, Refs(items[..i]))
    {
      var item := items[i];
      var j := 0;
      while j < |item.steps|
        invariant 0 <= j <= |item.steps|
        invariant forall k :: 0 <= k < j ==> RefDone(courseId, done, ItemRefs(item)[k])
      {
        if StepId(courseId, item.id, item.steps[j].id) !in done {
          PendingInItem(courseId, items, done, i, j);
          return Some(StepRef(item.id, item.steps[j].id));
        }
        j := j + 1;
      }
      DoneThroughItem(courseId, items, done, i);
      i := i + 1;
    }
    assert items[..i] == items;
    if |items| > 0 && |items[0].steps| > 0 {
      return Some(StepRef(items[0].id, items[0].steps[0].id));
    }
    return None;
  }

  /** A step not completed, after every earlier step of the course is, is the next incomplete step. */
  lemma PendingInItem(courseId: string, items: seq<CourseItem>, done: set<string>, i: nat, j: nat)
    requires i < |items| && j < |items[i].steps|
    requires AllDone(courseId, done, Refs(items[..i]))
    requires forall k :: 0 <= k < j ==> RefDone(courseId, done, ItemRefs(items[i])[k])
    requires StepId(courseId, items[i].id, items[i].steps[j].id) !in done
    ensures NextIncomplete(courseId, items, done) == Some(StepRef(items[i].id, items[i].steps[j].id))
  {
    var refs := Refs(items);
    var before := |Refs(items[..i])|;
    RefsStep(items, i);
    RefsPrefix(items, i + 1);
    assert Refs(items[..i + 1]) == Refs(items[..i]) + ItemRefs(items[i]);
    forall k | 0 <= k < before + j ensures RefDone(courseId, done, refs[k]) {
      if k < before {
        assert refs[k] == Refs(items[..i + 1])[k] == Refs(items[..i])[k];
      } else {
        assert refs[k] == Refs(items[..i + 1])[k] == ItemRefs(items[i])[k - before];
      }
    }
    assert refs[before + j] == ItemRefs(items[i])[j];
    FirstPendingAt(courseId, refs, done, before + j);
  }

  /** Once every step of item `i` is completed too, every step of the first `i + 1` items is. */
  lemma DoneThroughItem(courseId: string, items: seq<CourseItem>, done: set<string>, i: nat)
    requires i < |items|
    requires AllDone(courseId, done, Refs(items[..i]))
    requires forall k :: 0 <= k < |items[i].steps| ==> RefDone(courseId, done, ItemRefs(items[i])[k])
    ensures AllDone(courseId, done, Refs(items[..i + 1]))
  {
    RefsStep(items, i);
    var before := |Refs(items[..i])|;
    var next := Refs(items[..i + 1]);
    forall k | 0 <= k < |next| ensures RefDone(courseId, done, next[k]) {
      if k < before {
        assert next[k] == Refs(items[..i])[k];
      } else {
        assert next[k] == ItemRefs(items[i])[k - before];
      }
    }
  }
}
