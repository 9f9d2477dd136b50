/** The course tree: courses hold lessons and projects, which hold steps. */
module CourseData {

  /** One page of an item; `content` is its Markdown text. */
  datatype Step = Step(id: string, title: string, content: string)

  /** The `type` tag of a course item. */
  datatype ItemKind = LessonItem | ProjectItem

  /** A lesson or a project: both carry an ordered list of steps. */
  datatype CourseItem = CourseItem(id: string, title: string, description: string, kind: ItemKind, steps: seq<Step>)

  datatype Course = Course(id: string, title: string, description: string, items: seq<CourseItem>)

  /** The route of a step page: `/course/<courseId>/<itemId>/<stepId>`. */
  function StepPath(courseId: string, itemId: string, stepId: string): (path: string)
    ensures |path| > 8 && path[..8] == "/course/"
  {
    "/course/" + courseId + "/" + itemId + "/" + stepId
  }
}
