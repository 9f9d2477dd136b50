/** The previous/next buttons and the "Step i of n" counter under a step page. */
module StepNavigation {
  import opened Wrappers
  import opened CourseData

  /** Some step carries `id`. */
  predicate Present(steps: seq<Step>, id: string) {
    exists k :: 0 <= k < |steps| && steps[k].id == id
  }

  /** No two steps share an id. */
  predicate DistinctIds(steps: seq<Step>) {
    forall j, k :: 0 <= j < k < |steps| ==> steps[j].id != steps[k].id
  }

  /** `steps.findIndex((s) => s.id === id)`: the first match, or -1. */
  function CurrentIndex(steps: seq<Step>, id: string): (i: int)
    ensures -1 <= i < |steps|
    ensures i >= 0 ==> steps[i].id == id && forall k :: 0 <= k < i ==> steps[k].id != id
    ensures i == -1 <==> !Present(steps, id)
  {
    FindFrom(steps, id, 0)
  }

  function FindFrom(steps: seq<Step>, id: string, from: nat): (i: int)
    requires from <= |steps|
    ensures i == -1 || from <= i < |steps|
    ensures i >= 0 ==> steps[i].id == id && forall k :: from <= k < i ==> steps[k].id != id
    ensures i == -1 ==> forall k :: from <= k < |steps| ==> steps[k].id != id
    decreases |steps| - from
  {
    if from == |steps| then -1
    else if steps[from].id == id then from
    else FindFrom(steps, id, from + 1)
  }

  /** What the navigation bar shows: the neighbouring steps and the counter. */
  datatype Navigation = Navigation(prev: Option<Step>, next: Option<Step>, position: int, total: nat)

  /** The navigation bar for the step `currentStepId` among `steps`. */
  function Navigate(steps: seq<Step>, currentStepId: string): (nav: Navigation)
    ensures nav.total == |steps|
    ensures nav.position == CurrentIndex(steps, currentStepId) + 1
    ensures nav.prev.Some? <==> steps != [] && Present(steps, currentStepId) && steps[0].id != currentStepId
    ensures nav.prev.Some? ==> nav.prev.value == steps[CurrentIndex(steps, currentStepId) - 1]
    ensures nav.next.Some? <==> CurrentIndex(steps, currentStepId) + 1 < |steps|
    ensures nav.next.Some? ==> nav.next.value == steps[CurrentIndex(steps, currentStepId) + 1]
    ensures !Present(steps, currentStepId) ==> nav.prev == None && nav.position == 0
    ensures !Present(steps, currentStepId) && steps != [] ==> nav.next == Some(steps[0])
  {
    var i := CurrentIndex(steps, currentStepId);
    var prev := if i > 0 then Some(steps[i - 1]) else None;
    var next := if i < |steps| - 1 then Some(steps[i + 1]) else None;
    Navigation(prev, next, i + 1, |steps|)
  }

  /** The link behind a neighbour button. */
  function NeighbourLink(courseId: string, itemId: string, neighbour: Option<Step>): (link: Option<string>)
    ensures link.Some? <==> neighbour.Some?
    ensures link.Some? ==> link.value == "/course/" + courseId + "/" + itemId + "/" + neighbour.value.id
  {
    match neighbour
    case Some(s) => Some(StepPath(courseId, itemId, s.id))
    case None => None
  }

  /** With distinct ids, the position of a step is its index plus one. */
  lemma IndexOfDistinct(steps: seq<Step>, k: nat)
    requires DistinctIds(steps) && k < |steps|
    ensures CurrentIndex(steps, steps[k].id) == k
  {
  }

  /** With distinct ids, going to the next step and then back returns to the same step. */
  lemma NextThenPrev(steps: seq<Step>, id: string)
    requires DistinctIds(steps)
    requires Present(steps, id)
    requires Navigate(steps, id).next.Some?
    ensures Navigate(steps, Navigate(steps, id).next.value.id).prev == Some(steps[CurrentIndex(steps, id)])
  {
    var i := CurrentIndex(steps, id);
    IndexOfDistinct(steps, i + 1);
  }

  /** With distinct ids, going back and then forward returns to the same step. */
  lemma PrevThenNext(steps: seq<Step>, id: string)
    requires DistinctIds(steps)
    requires Navigate(steps, id).prev.Some?
    ensures Navigate(steps, Navigate(steps, id).prev.value.id).next == Some(steps[CurrentIndex(steps, id)])
  {
    var i := CurrentIndex(steps, id);
    IndexOfDistinct(steps, i - 1);
  }
}
