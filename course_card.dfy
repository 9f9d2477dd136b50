/** The numbers and the link a course card shows. */
module CourseCard {
  import opened CourseData

  /** `items.filter((item) => item.type === kind).length`. */
  function CountKind(items: seq<CourseItem>, kind: ItemKind): (n: nat)
    ensures n <= |items|
    ensures n == 0 <==> forall k :: 0 <= k < |items| ==> items[k].kind != kind
    decreases |items|
  {
    if items == [] then 0
    else
      var rest := CountKind(items[1..], kind);
      assert forall k :: 1 <= k < |items| ==> items[k] == items[1..][k - 1];
      (if items[0].kind == kind then 1 else 0) + rest
  }

  function LessonCount(c: Course): nat {
    CountKind(c.items, LessonItem)
  }

  function ProjectCount(c: Course): nat {
    CountKind(c.items, ProjectItem)
  }

  /** Every item is a lesson or a project, so the two counts add up to the number of items. */
  lemma {:induction false} CountsPartition(items: seq<CourseItem>)
    ensures CountKind(items, LessonItem) + CountKind(items, ProjectItem) == |items|
    decreases |items|
  {
    if items != [] {
      CountsPartition(items[1..]);
    }
  }

  /** The card's counts cover the course's items exactly. */
  lemma CardCounts(c: Course)
    ensures LessonCount(c) + ProjectCount(c) == |c.items|
    ensures LessonCount(c) <= |c.items| && ProjectCount(c) <= |c.items|
  {
    CountsPartition(c.items);
  }

  /** Whether the course has a first item with a first step. */
  predicate HasFirstStep(c: Course) {
    c.items != [] && c.items[0].steps != []
  }

  /** The card links to the first item's first step, or to "#" when there is none. */
  function CardLink(c: Course): (link: string)
    ensures link == "#" <==> !HasFirstStep(c)
    ensures HasFirstStep(c) ==> link == StepPath(c.id, c.items[0].id, c.items[0].steps[0].id)
  {
    if HasFirstStep(c) then
      var path := StepPath(c.id, c.items[0].id, c.items[0].steps[0].id);
      assert path[0] == '/';
      path
    else "#"
  }

  /** `count === 1 ? singular : plural`. */
  function CountLabel(count: nat, singular: string, plural: string): (shown: string)
    ensures singular != plural ==> (shown == singular <==> count == 1)
    ensures shown == singular || shown == plural
  {
    if count == 1 then singular else plural
  }

  /** The lesson counter's noun: singular for exactly one lesson, plural otherwise. */
  function LessonLabel(c: Course): (shown: string)
    ensures shown == "Lesson" <==> LessonCount(c) == 1
    ensures shown != "Lesson" ==> shown == "Lessons"
  {
    assert "Lesson" != "Lessons";
    CountLabel(LessonCount(c), "Lesson", "Lessons")
  }

  /** The project counter's noun: singular for exactly one project, plural otherwise. */
  function ProjectLabel(c: Course): (shown: string)
    ensures shown == "Project" <==> ProjectCount(c) == 1
    ensures shown != "Project" ==> shown == "Projects"
  {
    assert "Project" != "Projects";
    CountLabel(ProjectCount(c), "Project", "Projects")
  }
}
