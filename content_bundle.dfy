/**
 * The bundled course content: MDX files keyed by path, looked up by course,
 * lesson and step ids, and the course list ordered by each course's
 * `order` front-matter field.
 */
module ContentBundle {
  import opened Wrappers
  import opened Text

  /** What the front-matter parser yields for a raw file: the `order` field (none when missing or falsy) and the body. */
  datatype FrontMatter = FrontMatter(order: Option<int>, body: string)

  /** A parsed file: its `order` metadata and its trimmed body. */
  datatype MdxContent = MdxContent(order: Option<int>, content: string)

  /**
   * The bundled files: their paths in key order, the raw text of each, and
   * the front-matter parser (a library call, taken as given).
   */
  datatype Bundle = Bundle(paths: seq<string>, raw: map<string, string>, matter: string -> FrontMatter)

  const PathPrefix: string := "../../content/"

  /** `getContent`: nothing for a missing path or an empty file, otherwise the metadata and the trimmed body. */
  function GetContent(b: Bundle, path: string): (r: Option<MdxContent>)
    ensures r.None? <==> path !in b.raw || b.raw[path] == ""
    ensures r.Some? ==> r.value.content == Trim(b.matter(b.raw[path]).body)
    ensures r.Some? ==> r.value.order == b.matter(b.raw[path]).order
  {
    if path !in b.raw || b.raw[path] == "" then None
    else
      var fm := b.matter(b.raw[path]);
      Some(MdxContent(fm.order, Trim(fm.body)))
  }

  /** The body `GetContent` returns has no surrounding whitespace, so trimming it again changes nothing. */
  lemma ContentIsTrimmed(b: Bundle, path: string)
    requires GetContent(b, path).Some?
    ensures Trim(GetContent(b, path).value.content) == GetContent(b, path).value.content
  {
    TrimIdempotent(b.matter(b.raw[path]).body);
  }

  /** The path `getCourseMeta` reads. */
  function CourseFile(courseId: string): (path: string)
    ensures StartsWith(path, PathPrefix) && EndsWith(path, "/course.mdx")
  {
    PathPrefix + courseId + "/course.mdx"
  }

  /** The folder holding a course's lessons. */
  function LessonsDir(courseId: string): (dir: string)
    ensures StartsWith(dir, PathPrefix + courseId + "/") && EndsWith(dir, "/lessons/")
  {
    PathPrefix + courseId + "/lessons/"
  }

  /** The folder holding a lesson's steps. */
  function StepsDir(courseId: string, lessonId: string): (dir: string)
    ensures StartsWith(dir, LessonsDir(courseId)) && EndsWith(dir, "/steps/")
  {
    LessonsDir(courseId) + lessonId + "/steps/"
  }

  /** The path `getLessonMeta` reads. */
  function LessonFile(courseId: string, lessonId: string): (path: string)
    ensures StartsWith(path, LessonsDir(courseId)) && EndsWith(path, "/lesson.mdx")
  {
    LessonsDir(courseId) + lessonId + "/" + "lesson.mdx"
  }

  /** The path `getStepContent` reads. */
  function StepFile(courseId: string, lessonId: string, stepId: string): (path: string)
    ensures StartsWith(path, StepsDir(courseId, lessonId)) && EndsWith(path, "/step.mdx")
  {
    StepsDir(courseId, lessonId) + stepId + "/" + "step.mdx"
  }

  /** The text up to the first '/'. */
  function FirstSegment(s: string): (seg: string)
    ensures StartsWith(s, seg) && !Contains(seg, "/")
    ensures seg == s || StartsWith(s, seg + "/")
  {
    var parts := Split(s, "/");
    JoinStartsWithFirst(parts, "/");
    JoinSplit(s, "/");
    assert |parts| > 1 ==> s == (parts[0] + "/") + Join(parts[1..], "/");
    parts[0]
  }

  /** The paths under `dir` that end in `suffix`, in key order. */
  function Matching(paths: seq<string>, dir: string, suffix: string): (ms: seq<string>)
    ensures forall k :: 0 <= k < |ms| ==> StartsWith(ms[k], dir) && EndsWith(ms[k], suffix)
    ensures forall k :: 0 <= k < |ms| ==> ms[k] in paths
    ensures forall p :: p in paths && StartsWith(p, dir) && EndsWith(p, suffix) ==> p in ms
    decreases |paths|
  {
    if paths == [] then []
    else
      var rest := Matching(paths[1..], dir, suffix);
      assert forall p :: p in paths[1..] ==> p in paths;
      if StartsWith(paths[0], dir) && EndsWith(paths[0], suffix) then [paths[0]] + rest else rest
  }

  /** A single path is kept exactly when it lies under `dir` and ends in `suffix`. */
  lemma MatchingSingle(p: string, dir: string, suffix: string)
    ensures Matching([p], dir, suffix) == if StartsWith(p, dir) && EndsWith(p, suffix) then [p] else []
  {
    assert [p][1..] == [];
  }

  /** The filter keeps key order: matching a concatenation concatenates the matches. */
  lemma {:induction false} MatchingAppend(a: seq<string>, c: seq<string>, dir: string, suffix: string)
    ensures Matching(a + c, dir, suffix) == Matching(a, dir, suffix) + Matching(c, dir, suffix)
    decreases |a|
  {
    if a == [] {
      assert a + c == c;
    } else {
      assert (a + c)[0] == a[0];
      assert (a + c)[1..] == a[1..] + c;
      MatchingAppend(a[1..], c, dir, suffix);
      if StartsWith(a[0], dir) && EndsWith(a[0], suffix) {
        AppendAssoc([a[0]], Matching(a[1..], dir, suffix), Matching(c, dir, suffix));
      }
    }
  }

  /** A path that starts with `p` followed by a prefix of the rest starts with both. */
  lemma PrefixThen(s: string, p: string, q: string)
    requires StartsWith(s, p) && StartsWith(DropPrefix(s, p), q)
    ensures StartsWith(s, p + q)
  {
    assert s[..|p| + |q|] == s[..|p|] + s[|p|..][..|q|];
  }

  /** The first segment after `dir` of each path. */
  function SegmentsAfter(ms: seq<string>, dir: string): (ids: seq<string>)
    requires forall k :: 0 <= k < |ms| ==> StartsWith(ms[k], dir)
    ensures |ids| == |ms|
    ensures forall k :: 0 <= k < |ms| ==> ids[k] == FirstSegment(DropPrefix(ms[k], dir))
    ensures forall k :: 0 <= k < |ms| ==> !Contains(ids[k], "/") && StartsWith(ms[k], dir + ids[k])
    ensures forall k :: 0 <= k < |ms| ==> DropPrefix(ms[k], dir) == ids[k] || StartsWith(ms[k], dir + ids[k] + "/")
  {
    var ids := seq(|ms|, k requires 0 <= k < |ms| => FirstSegment(DropPrefix(ms[k], dir)));
    SegmentsArePrefixes(ms, dir, ids);
    ids
  }

  /** Each path starts with `dir` followed by its slash-free first segment. */
  lemma SegmentsArePrefixes(ms: seq<string>, dir: string, ids: seq<string>)
    requires forall k :: 0 <= k < |ms| ==> StartsWith(ms[k], dir)
    requires |ids| == |ms| && forall k :: 0 <= k < |ms| ==> ids[k] == FirstSegment(DropPrefix(ms[k], dir))
    ensures forall k :: 0 <= k < |ms| ==> !Contains(ids[k], "/") && StartsWith(ms[k], dir + ids[k])
    ensures forall k :: 0 <= k < |ms| ==> DropPrefix(ms[k], dir) == ids[k] || StartsWith(ms[k], dir + ids[k] + "/")
  {
    forall k | 0 <= k < |ms|
      ensures StartsWith(ms[k], dir + ids[k])
      ensures DropPrefix(ms[k], dir) == ids[k] || StartsWith(ms[k], dir + ids[k] + "/")
    {
      PrefixThen(ms[k], dir, ids[k]);
      if DropPrefix(ms[k], dir) != ids[k] {
        PrefixThen(ms[k], dir, ids[k] + "/");
        assert dir + (ids[k] + "/") == dir + ids[k] + "/";
      }
    }
  }

  /**
   * `getLessonIds`: for each `lesson.mdx` under the course's lessons folder,
   * in key order, the whole folder name right below that folder: the text up
   * to the next '/', or to the end when no '/' follows.
   */
  function LessonIds(b: Bundle, courseId: string): (ids: seq<string>)
    ensures var ms := Matching(b.paths, LessonsDir(courseId), "/lesson.mdx");
      && |ids| == |ms|
      && forall k :: 0 <= k < |ids| ==>
           && !Contains(ids[k], "/")
           && StartsWith(ms[k], LessonsDir(courseId) + ids[k])
           && (DropPrefix(ms[k], LessonsDir(courseId)) == ids[k] || StartsWith(ms[k], LessonsDir(courseId) + ids[k] + "/"))
  {
    var dir := LessonsDir(courseId);
    SegmentsAfter(Matching(b.paths, dir, "/lesson.mdx"), dir)
  }

  /**
   * `getStepIds`: for each `step.mdx` under the lesson's steps folder,
   * in key order, the whole folder name right below that folder: the text up
   * to the next '/', or to the end when no '/' follows.
   */
  function StepIds(b: Bundle, courseId: string, lessonId: string): (ids: seq<string>)
    ensures var ms := Matching(b.paths, StepsDir(courseId, lessonId), "/step.mdx");
      && |ids| == |ms|
      && forall k :: 0 <= k < |ids| ==>
           && !Contains(ids[k], "/")
           && StartsWith(ms[k], StepsDir(courseId, lessonId) + ids[k])
           && (DropPrefix(ms[k], StepsDir(courseId, lessonId)) == ids[k]
               || StartsWith(ms[k], StepsDir(courseId, lessonId) + ids[k] + "/"))
  {
    var dir := StepsDir(courseId, lessonId);
    SegmentsAfter(Matching(b.paths, dir, "/step.mdx"), dir)
  }

  /** A file path built from `dir`, a slash-free id and a file name gives that id back as its first segment after `dir`. */
  lemma SegmentOfBuiltPath(dir: string, id: string, file: string)
    requires !Contains(id, "/")
    ensures StartsWith(dir + id + "/" + file, dir)
    ensures FirstSegment(DropPrefix(dir + id + "/" + file, dir)) == id
  {
    var p := dir + id + "/" + file;
    assert p[..|dir|] == dir;
    assert DropPrefix(p, dir) == id + "/" + file;
    SplitCons(id, "/", file);
  }

  /** Every lesson whose `lesson.mdx` is bundled is listed by `getLessonIds`. */
  lemma LessonIdsComplete(b: Bundle, courseId: string, lessonId: string)
    requires !Contains(lessonId, "/")
    requires LessonFile(courseId, lessonId) in b.paths
    ensures lessonId in LessonIds(b, courseId)
  {
    var dir := LessonsDir(courseId);
    var ms := Matching(b.paths, dir, "/lesson.mdx");
    var p := LessonFile(courseId, lessonId);
    assert p == dir + lessonId + "/" + "lesson.mdx";
    SegmentOfBuiltPath(dir, lessonId, "lesson.mdx");
    var k :| 0 <= k < |ms| && ms[k] == p;
    assert LessonIds(b, courseId)[k] == lessonId;
  }

  /** Every step whose `step.mdx` is bundled is listed by `getStepIds`. */
  lemma StepIdsComplete(b: Bundle, courseId: string, lessonId: string, stepId: string)
    requires !Contains(stepId, "/")
    requires StepFile(courseId, lessonId, stepId) in b.paths
    ensures stepId in StepIds(b, courseId, lessonId)
  {
    var dir := StepsDir(courseId, lessonId);
    var ms := Matching(b.paths, dir, "/step.mdx");
    var p := StepFile(courseId, lessonId, stepId);
    assert p == dir + stepId + "/" + "step.mdx";
    SegmentOfBuiltPath(dir, stepId, "step.mdx");
    var k :| 0 <= k < |ms| && ms[k] == p;
    assert StepIds(b, courseId, lessonId)[k] == stepId;
  }

  const CourseFileName: string := "/course.mdx"

  /** The index just past the last '/' of `s[..j]`, or 0 when it has none. */
  function AfterLastSlash(s: string, j: nat): (k: nat)
    requires j <= |s|
    ensures k <= j
    ensures forall m :: k <= m < j ==> s[m] != '/'
    ensures k > 0 ==> s[k - 1] == '/'
    decreases j
  {
    if j == 0 then 0 else if s[j - 1] == '/' then j else AfterLastSlash(s, j - 1)
  }

  /**
   * The course id the pattern `content/([^/]+)/course.mdx$` captures, or
   * the empty text when the path does not match.
   */
  function CourseIdOf(path: string): (id: string)
    ensures id != "" ==> !Contains(id, "/") && EndsWith(path, "content/" + id + CourseFileName)
  {
    if !EndsWith(path, CourseFileName) then ""
    else
      var end := |path| - |CourseFileName|;
      var start := AfterLastSlash(path, end);
      var id := path[start..end];
      if id != "" && EndsWith(path[..start], "content/") then
        NoSlash(id);
        CourseSuffix(path, start, end);
        id
      else ""
  }

  /** The tail of a matching path from `start - 8` is "content/", the id and the file name. */
  lemma CourseSuffix(path: string, start: nat, end: nat)
    requires EndsWith(path, CourseFileName) && end == |path| - |CourseFileName|
    requires start <= end && EndsWith(path[..start], "content/")
    ensures path[start - 8..] == "content/" + path[start..end] + CourseFileName
  {
    assert path[start - 8..start] == path[..start][start - 8..];
    assert path[end..] == CourseFileName;
    assert path[start - 8..] == path[start - 8..start] + path[start..end] + path[end..];
  }

  /** A text without the character '/' does not contain "/". */
  lemma NoSlash(s: string)
    requires forall m :: 0 <= m < |s| ==> s[m] != '/'
    ensures !Contains(s, "/")
  {
    forall i: nat | i <= |s| ensures !OccursAt(s, "/", i) {
      if i + 1 <= |s| {
        assert s[i..i + 1] == [s[i]];
      }
    }
  }

  /** The id of a course's own file is the course id. */
  lemma CourseIdOfCourseFile(courseId: string)
    requires courseId != "" && !Contains(courseId, "/")
    ensures CourseIdOf(CourseFile(courseId)) == courseId
  {
    var path := CourseFile(courseId);
    var end := |path| - |CourseFileName|;
    assert path[end..] == CourseFileName;
    assert path[..end] == PathPrefix + courseId;
    forall m | |PathPrefix| <= m < end ensures path[m] != '/' {
      var i := m - |PathPrefix|;
      assert path[m] == courseId[i];
      assert !OccursAt(courseId, "/", i);
      assert courseId[i..i + 1] == [courseId[i]];
    }
    assert path[|PathPrefix| - 1] == '/';
    assert AfterLastSlash(path, end) == |PathPrefix|;
    assert path[..|PathPrefix|] == PathPrefix;
  }

  /** A course and its sort key. */
  datatype CourseEntry = CourseEntry(courseId: string, order: int)

  /** `courseMeta?.metadata?.order || 0` for a matched path. */
  function OrderOf(b: Bundle, path: string): (order: int)
    ensures GetContent(b, path).None? ==> order == 0
    ensures GetContent(b, path).Some? && GetContent(b, path).value.order.Some? ==> order == GetContent(b, path).value.order.value
    ensures order != 0 ==> GetContent(b, path).Some? && GetContent(b, path).value.order == Some(order)
  {
    match GetContent(b, path)
    case None => 0
    case Some(c) => c.order.GetOr(0)
  }

  /** The map and filter of `getCourseIds`: one entry per matching `course.mdx` path, in key order. */
  function Entries(b: Bundle, paths: seq<string>): (es: seq<CourseEntry>)
    ensures forall k :: 0 <= k < |es| ==> es[k].courseId != "" && !Contains(es[k].courseId, "/")
    ensures |es| <= |paths|
    decreases |paths|
  {
    if paths == [] then []
    else
      var init := Entries(b, paths[..|paths| - 1]);
      var p := paths[|paths| - 1];
      var id := if EndsWith(p, CourseFileName) then CourseIdOf(p) else "";
      if id != "" then init + [CourseEntry(id, OrderOf(b, p))] else init
  }

  /** A single path gives an entry exactly when it is a course file with a non-empty id. */
  lemma EntriesSingle(b: Bundle, p: string)
    ensures Entries(b, [p]) == if CourseIdOf(p) != "" then [CourseEntry(CourseIdOf(p), OrderOf(b, p))] else []
  {
    assert [p][..0] == [];
  }

  /** The map and filter keep key order: the entries of a concatenation concatenate. */
  lemma {:induction false} EntriesAppend(b: Bundle, a: seq<string>, c: seq<string>)
    ensures Entries(b, a + c) == Entries(b, a) + Entries(b, c)
    decreases |c|
  {
    if c == [] {
      assert a + c == a;
    } else {
      var init := c[..|c| - 1];
      assert (a + c)[..|a + c| - 1] == a + init;
      assert (a + c)[|a + c| - 1] == c[|c| - 1];
      EntriesAppend(b, a, init);
      var p := c[|c| - 1];
      if EndsWith(p, CourseFileName) && CourseIdOf(p) != "" {
        AppendAssoc(Entries(b, a), Entries(b, init), [CourseEntry(CourseIdOf(p), OrderOf(b, p))]);
      }
    }
  }

  /** Every bundled `course.mdx` of a course gives that course's entry. */
  lemma CourseListed(b: Bundle, courseId: string)
    requires courseId != "" && !Contains(courseId, "/")
    requires CourseFile(courseId) in b.paths
    ensures CourseEntry(courseId, OrderOf(b, CourseFile(courseId))) in Entries(b, b.paths)
  {
    var p := CourseFile(courseId);
    var i :| 0 <= i < |b.paths| && b.paths[i] == p;
    var pre, post := b.paths[..i], b.paths[i + 1..];
    assert b.paths == pre + [p] + post;
    EntriesAppend(b, pre + [p], post);
    EntriesAppend(b, pre, [p]);
    EntriesSingle(b, p);
    CourseIdOfCourseFile(courseId);
    var e := CourseEntry(courseId, OrderOf(b, p));
    assert Entries(b, b.paths) == Entries(b, pre) + [e] + Entries(b, post);
    assert Entries(b, b.paths)[|Entries(b, pre)|] == e;
  }

  /** The entries sorted by order. */
  predicate SortedByOrder(es: seq<CourseEntry>) {
    forall i, j :: 0 <= i < j < |es| ==> es[i].order <= es[j].order
  }

  /** Where the comparison sort puts `x` among `s`: after every trailing entry with a larger order. */
  function InsertPos(s: seq<CourseEntry>, x: CourseEntry): (p: nat)
    ensures p <= |s|
    ensures forall k :: p <= k < |s| ==> s[k].order > x.order
    ensures p > 0 ==> s[p - 1].order <= x.order
    decreases |s|
  {
    if s == [] || s[|s| - 1].order <= x.order then |s| else InsertPos(s[..|s| - 1], x)
  }

  function Insert(s: seq<CourseEntry>, x: CourseEntry): (r: seq<CourseEntry>)
    ensures |r| == |s| + 1
  {
    var p := InsertPos(s, x);
    s[..p] + [x] + s[p..]
  }

  /** Inserting adds exactly `x`. */
  lemma InsertPermutes(s: seq<CourseEntry>, x: CourseEntry)
    ensures multiset(Insert(s, x)) == multiset(s) + multiset{x}
  {
    var p := InsertPos(s, x);
    assert s == s[..p] + s[p..];
  }

  /** The stable sort by `order`: each entry in turn is inserted after every entry not greater than it. */
  function StableSort(es: seq<CourseEntry>): (r: seq<CourseEntry>)
    ensures |r| == |es|
    decreases |es|
  {
    if es == [] then [] else Insert(StableSort(es[..|es| - 1]), es[|es| - 1])
  }

  /** The entries carrying one particular order, in sequence order. */
  function WithOrder(es: seq<CourseEntry>, order: int): seq<CourseEntry>
    decreases |es|
  {
    if es == [] then []
    else WithOrder(es[..|es| - 1], order) + (if es[|es| - 1].order == order then [es[|es| - 1]] else [])
  }

  lemma {:induction false} WithOrderAppend(a: seq<CourseEntry>, b: seq<CourseEntry>, order: int)
    ensures WithOrder(a + b, order) == WithOrder(a, order) + WithOrder(b, order)
    decreases |b|
  {
    if b == [] {
      assert a + b == a;
    } else {
      WithOrderAppend(a, b[..|b| - 1], order);
      assert (a + b)[..|a + b| - 1] == a + b[..|b| - 1];
    }
  }

  /** Inserting keeps the order: the entries before the slot are not greater, those after are greater. */
  lemma InsertSorted(s: seq<CourseEntry>, x: CourseEntry)
    requires SortedByOrder(s)
    ensures SortedByOrder(Insert(s, x))
  {
    var p := InsertPos(s, x);
    var r := Insert(s, x);
    InsertAt(s, x);
    forall i, j | 0 <= i < j < |r| ensures r[i].order <= r[j].order {
      if i < p && j == p {
        assert s[i].order <= s[p - 1].order;
      }
    }
  }

  /** The entries of `Insert(s, x)`: those of `s` before the slot, then `x`, then the rest of `s`. */
  lemma InsertAt(s: seq<CourseEntry>, x: CourseEntry)
    ensures var p, r := InsertPos(s, x), Insert(s, x);
      forall k :: 0 <= k < |r| ==> r[k] == if k < p then s[k] else if k == p then x else s[k - 1]
  {
  }

  /** Inserting adds `x` after every entry of its own order and leaves the other orders alone. */
  lemma InsertWithOrder(s: seq<CourseEntry>, x: CourseEntry, order: int)
    ensures WithOrder(Insert(s, x), order) == WithOrder(s, order) + (if x.order == order then [x] else [])
  {
    var p := InsertPos(s, x);
    assert s == s[..p] + s[p..];
    SpliceWithOrder(s[..p], s[p..], x, order);
  }

  /** Placing `x` in front of entries all of a larger order adds it at the end of its order's subsequence. */
  lemma SpliceWithOrder(a: seq<CourseEntry>, b: seq<CourseEntry>, x: CourseEntry, order: int)
    requires forall k :: 0 <= k < |b| ==> b[k].order > x.order
    ensures WithOrder(a + [x] + b, order) == WithOrder(a + b, order) + (if x.order == order then [x] else [])
  {
    WithOrderAppend(a + [x], b, order);
    WithOrderSnoc(a, x, order);
    WithOrderAppend(a, b, order);
    if x.order == order {
      NoneWithOrder(b, order);
      assert WithOrder(a + [x] + b, order) == WithOrder(a, order) + [x];
      assert WithOrder(a + b, order) == WithOrder(a, order);
    } else {
      assert WithOrder(a + [x] + b, order) == WithOrder(a, order) + WithOrder(b, order);
    }
  }

  /** One more entry at the end joins its order's subsequence at the end. */
  lemma WithOrderSnoc(a: seq<CourseEntry>, x: CourseEntry, order: int)
    ensures WithOrder(a + [x], order) == WithOrder(a, order) + (if x.order == order then [x] else [])
  {
    assert (a + [x])[..|a|] == a;
  }

  /** Entries all of a larger order contribute nothing to `order`'s subsequence. */
  lemma {:induction false} NoneWithOrder(s: seq<CourseEntry>, order: int)
    requires forall k :: 0 <= k < |s| ==> s[k].order > order
    ensures WithOrder(s, order) == []
    decreases |s|
  {
    if s != [] {
      NoneWithOrder(s[..|s| - 1], order);
    }
  }

  /** The sort orders by `order`. */
  lemma {:induction false} StableSortSorted(es: seq<CourseEntry>)
    ensures SortedByOrder(StableSort(es))
    decreases |es|
  {
    if es != [] {
      StableSortSorted(es[..|es| - 1]);
      InsertSorted(StableSort(es[..|es| - 1]), es[|es| - 1]);
    }
  }

  /** The sort is stable: the entries of each order keep their relative order. */
  lemma {:induction false} StableSortStable(es: seq<CourseEntry>, order: int)
    ensures WithOrder(StableSort(es), order) == WithOrder(es, order)
    decreases |es|
  {
    if es != [] {
      StableSortStable(es[..|es| - 1], order);
      InsertWithOrder(StableSort(es[..|es| - 1]), es[|es| - 1], order);
    }
  }

  /** The sort is a permutation. */
  lemma {:induction false} StableSortPermutes(es: seq<CourseEntry>)
    ensures multiset(StableSort(es)) == multiset(es)
    decreases |es|
  {
    if es != [] {
      var init, x := es[..|es| - 1], es[|es| - 1];
      StableSortPermutes(init);
      InsertPermutes(StableSort(init), x);
      assert es == init + [x];
      SnocPermutes(init, x, StableSort(init), StableSort(es));
    }
  }

  /** Adding `x` to a permutation of `init` gives a permutation of `init + [x]`. */
  lemma SnocPermutes(init: seq<CourseEntry>, x: CourseEntry, sorted: seq<CourseEntry>, r: seq<CourseEntry>)
    requires multiset(sorted) == multiset(init)
    requires multiset(r) == multiset(sorted) + multiset{x}
    ensures multiset(r) == multiset(init + [x])
  {
    assert multiset(init + [x]) == multiset(init) + multiset{x};
  }

  /** One pass of the insertion sort: moves `a[i]` left past every larger entry of the sorted prefix. */
  method InsertLast(a: array<CourseEntry>, i: nat)
    requires i < a.Length
    modifies a
    ensures a[..i + 1] == Insert(old(a[..i]), old(a[i]))
    ensures forall k :: i < k < a.Length ==> a[k] == old(a[k])
  {
    var x := a[i];
    ghost var sorted := a[..i];
    var j := i;
    while j > 0 && a[j - 1].order > x.order
      invariant 0 <= j <= i
      invariant forall k :: 0 <= k < j ==> a[k] == sorted[k]
      invariant forall k :: j < k <= i ==> a[k] == sorted[k - 1]
      invariant forall k :: i < k < a.Length ==> a[k] == old(a[k])
      invariant forall k :: j <= k < i ==> sorted[k].order > x.order
    {
      a[j] := a[j - 1];
      j := j - 1;
    }
    a[j] := x;
    InsertPosAt(sorted, x, j);
    Shifted(a[..], sorted, x, i, j);
  }

  /** The slot is the one after the last entry not greater than `x`, all later entries being greater. */
  lemma {:induction false} InsertPosAt(s: seq<CourseEntry>, x: CourseEntry, j: nat)
    requires j <= |s| && (j == 0 || s[j - 1].order <= x.order)
    requires forall k :: j <= k < |s| ==> s[k].order > x.order
    ensures InsertPos(s, x) == j
    decreases |s|
  {
    if |s| > j {
      var init := s[..|s| - 1];
      assert forall k :: j <= k < |init| ==> init[k] == s[k];
      InsertPosAt(init, x, j);
    }
  }

  /** The array after the pass holds the sorted prefix with `x` in its slot. */
  lemma Shifted(after: seq<CourseEntry>, sorted: seq<CourseEntry>, x: CourseEntry, i: nat, j: nat)
    requires j <= i == |sorted| < |after| && after[j] == x
    requires forall k :: 0 <= k < j ==> after[k] == sorted[k]
    requires forall k :: j < k <= i ==> after[k] == sorted[k - 1]
    requires InsertPos(sorted, x) == j
    ensures after[..i + 1] == Insert(sorted, x)
  {
    var r := Insert(sorted, x);
    assert r == sorted[..j] + [x] + sorted[j..];
    forall k | 0 <= k <= i ensures after[k] == r[k] {
      if k > j {
        assert r[k] == sorted[j..][k - j - 1];
      }
    }
  }

  /** `courses.sort((a, b) => a.order - b.order)`: an insertion sort of the array in place. */
  method SortCourses(a: array<CourseEntry>)
    modifies a
    ensures a[..] == StableSort(old(a[..]))
  {
    ghost var original := a[..];
    var i := 0;
    while i < a.Length
      invariant 0 <= i <= a.Length
      invariant a[..i] == StableSort(original[..i])
      invariant forall k :: i <= k < a.Length ==> a[k] == original[k]
    {
      ghost var before := a[..];
      InsertLast(a, i);
      assert original[..i + 1][..i] == original[..i];
      assert StableSort(original[..i + 1]) == Insert(StableSort(original[..i]), original[i]);
      i := i + 1;
    }
    assert a[..] == a[..a.Length];
    assert original[..a.Length] == original;
  }

  /** `getCourseIds`: the matched course ids, sorted by order with ties in key order. */
  method CourseIds(b: Bundle) returns (ids: seq<string>)
    ensures |ids| == |Entries(b, b.paths)|
    ensures forall k :: 0 <= k < |ids| ==> ids[k] == StableSort(Entries(b, b.paths))[k].courseId
    ensures forall c :: c != "" && !Contains(c, "/") && CourseFile(c) in b.paths ==> c in ids
  {
    var es := Entries(b, b.paths);
    var a := new CourseEntry[|es|](k requires 0 <= k < |es| => es[k]);
    assert a[..] == es;
    SortCourses(a);
    ids := seq(a.Length, k requires 0 <= k < a.Length reads a => a[k].courseId);
    forall c | c != "" && !Contains(c, "/") && CourseFile(c) in b.paths ensures c in ids {
      ListedId(b, c, ids);
    }
  }

  /** A listed course's id appears in any id list read off the sorted entries. */
  lemma ListedId(b: Bundle, courseId: string, ids: seq<string>)
    requires courseId != "" && !Contains(courseId, "/") && CourseFile(courseId) in b.paths
    requires |ids| == |Entries(b, b.paths)|
    requires forall k :: 0 <= k < |ids| ==> ids[k] == StableSort(Entries(b, b.paths))[k].courseId
    ensures courseId in ids
  {
    var es := Entries(b, b.paths);
    var e := CourseEntry(courseId, OrderOf(b, CourseFile(courseId)));
    CourseListed(b, courseId);
    StableSortPermutes(es);
    assert e in multiset(StableSort(es));
    var k :| 0 <= k < |StableSort(es)| && StableSort(es)[k] == e;
    assert ids[k] == courseId;
  }
}
