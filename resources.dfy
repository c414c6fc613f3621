/**
 * The records the two components receive from the course data source, and the
 * one derivation both components share: the list of completed lesson slugs.
 *
 * The source reads untyped objects with permissive lookups. Here every field
 * that may be missing is an `Option`; a boolean flag that may be missing is a
 * `bool` whose missing value reads as `false`, which is how JavaScript's
 * truthiness treats `undefined`.
 */
module Resources {
  import opened Wrappers

  /** A lesson: its slug identifies it; `path` is an opaque URL for the router. */
  datatype Lesson = Lesson(
    slug: string,
    title: string,
    path: Option<string>,
    duration: int,
    completed: bool)

  /** One element of a collection's mixed `items` list; `kind` is its `type` field. */
  datatype Item = Item(kind: string, resource: Lesson)

  /** A reference to a completed lesson inside a progress record; only its slug is read. */
  datatype LessonRef = LessonRef(slug: string)

  /** A learner's progress against a collection; every count may be missing. */
  datatype Progress = Progress(
    completedLessonCount: Option<int>,
    timeLeft: Option<int>,
    lessonCount: Option<int>,
    isCompleted: bool,
    completedLessons: Option<seq<LessonRef>>)

  datatype Series = Series(title: string)

  /** A course or other collection of lessons, with the learner's progress attached. */
  datatype Collection = Collection(
    slug: string,
    title: string,
    kind: string,
    path: Option<string>,
    squareCover: Option<string>,
    series: Option<Series>,
    lessons: Option<seq<Lesson>>,
    items: Option<seq<Item>>,
    progress: Option<Progress>)

  /** JavaScript truthiness of a string that may be missing: present and non-empty. */
  predicate Truthy(s: Option<string>) {
    s.Some? && s.value != ""
  }

  /** A destructuring default `= 0`: a missing count reads as zero. */
  function CountOrZero(n: Option<int>): int {
    if n.Some? then n.value else 0
  }

  /** `refs.map(lesson => lesson.slug)`. */
  function SlugsOf(refs: seq<LessonRef>): (r: seq<string>)
    ensures |r| == |refs|
    ensures forall i :: 0 <= i < |refs| ==> r[i] == refs[i].slug
  {
    if refs == [] then [] else [refs[0].slug] + SlugsOf(refs[1..])
  }

  /**
   * The slugs of the completed lessons of a progress record, in its order; empty
   * when there is no progress record or it has no `completed_lessons` list.
   */
  function CompletedSlugs(p: Option<Progress>): (r: seq<string>)
    ensures p.None? ==> r == []
    ensures p.Some? && p.value.completedLessons.None? ==> r == []
    ensures p.Some? && p.value.completedLessons.Some? ==>
      |r| == |p.value.completedLessons.value| &&
      forall i :: 0 <= i < |r| ==> r[i] == p.value.completedLessons.value[i].slug
  {
    if p.Some? && p.value.completedLessons.Some? then SlugsOf(p.value.completedLessons.value) else []
  }

  /** A slug counts as completed exactly when some entry of `completed_lessons` carries it. */
  lemma InCompletedSlugs(refs: seq<LessonRef>, p: Progress, s: string)
    requires p.completedLessons == Some(refs)
    ensures s in CompletedSlugs(Some(p)) <==> exists j :: 0 <= j < |refs| && refs[j].slug == s
  {
  }
}
