/**
 * The ordered lesson list shown beside a playing lesson: one entry per lesson
 * with its completion mark, its position, and a link unless it is the lesson
 * being played.
 */
module CollectionLessonsList {
  import opened Wrappers
  import opened Resources
  import InProgressCollection

  /** What an entry shows in its first column: a check mark, or its 1-based position. */
  datatype Marker = CheckMark | Position(n: int)

  /** Whether the entry is wrapped in a link, and to which path. */
  datatype Anchor = Unlinked | LinkTo(href: Option<string>)

  /** One list entry, keyed by its lesson's slug. */
  datatype Entry = Entry(
    key: string,
    title: string,
    duration: int,
    completed: bool,
    active: bool,
    marker: Marker,
    anchor: Anchor)

  /** The label of an entry: a check mark when completed, otherwise `index + 1`. */
  function ItemMarker(completed: bool, index: nat): (m: Marker)
    ensures m == CheckMark <==> completed
    ensures !completed ==> m == Position(index + 1)
  {
    if completed then CheckMark else Position(index + 1)
  }

  /** The active entry is rendered bare; every other entry links to its lesson's path. */
  function ItemAnchor(active: bool, lesson: Lesson): Anchor {
    if active then Unlinked else LinkTo(lesson.path)
  }

  /** The entry for `lesson` at position `index`, given the current slug and the completed slugs. */
  function EntryFor(lesson: Lesson, index: nat, currentSlug: string, done: seq<string>): Entry {
    var completed := lesson.completed || lesson.slug in done;
    var active := lesson.slug == currentSlug;
    Entry(lesson.slug, lesson.title, lesson.duration, completed, active,
          ItemMarker(completed, index), ItemAnchor(active, lesson))
  }

  /** `lessons.map((lesson, index) => ...)` for the lessons numbered from `start`. */
  function EntriesFrom(lessons: seq<Lesson>, start: nat, currentSlug: string, done: seq<string>): (r: seq<Entry>)
    ensures |r| == |lessons|
    ensures forall i :: 0 <= i < |lessons| ==> r[i] == EntryFor(lessons[i], start + i, currentSlug, done)
  {
    if lessons == [] then []
    else [EntryFor(lessons[0], start, currentSlug, done)] + EntriesFrom(lessons[1..], start + 1, currentSlug, done)
  }

  /** The rendered list: nothing when the course has no `lessons`, else one entry per lesson. */
  function LessonsList(course: Collection, currentSlug: string, progress: Option<Progress>): Option<seq<Entry>> {
    match course.lessons
    case None => None
    case Some(lessons) => Some(EntriesFrom(lessons, 0, currentSlug, CompletedSlugs(progress)))
  }

  // ---------------------------------------------------------------------------
  // Properties

  /** A course without `lessons` renders nothing; with them (even none) it renders a list. */
  lemma ListRenderedIffLessons(course: Collection, currentSlug: string, progress: Option<Progress>)
    ensures LessonsList(course, currentSlug, progress).Some? <==> course.lessons.Some?
  {
  }

  /**
   * One entry per lesson, in order and keyed by its slug; the entry is completed
   * exactly when the lesson's own flag is set or its slug is among the completed
   * lessons, active exactly when its slug is the current one; it shows a check
   * mark when completed and its position otherwise, and links to the lesson's
   * path unless it is active.
   */
  lemma EntryRules(course: Collection, currentSlug: string, progress: Option<Progress>, i: nat)
    requires course.lessons.Some? && i < |course.lessons.value|
    ensures var entries := LessonsList(course, currentSlug, progress).value;
      var lesson := course.lessons.value[i];
      |entries| == |course.lessons.value| &&
      entries[i].key == lesson.slug &&
      (entries[i].completed <==> lesson.completed || lesson.slug in CompletedSlugs(progress)) &&
      (entries[i].active <==> lesson.slug == currentSlug) &&
      (entries[i].completed ==> entries[i].marker == CheckMark) &&
      (!entries[i].completed ==> entries[i].marker == Position(i + 1)) &&
      (entries[i].active ==> entries[i].anchor == Unlinked) &&
      (!entries[i].active ==> entries[i].anchor == LinkTo(lesson.path))
  {
  }

  /** Completion read straight from the progress record's `completed_lessons`. */
  lemma CompletedFromProgress(course: Collection, currentSlug: string, p: Progress, refs: seq<LessonRef>, i: nat)
    requires course.lessons.Some? && i < |course.lessons.value|
    requires p.completedLessons == Some(refs)
    ensures var lesson := course.lessons.value[i];
      LessonsList(course, currentSlug, Some(p)).value[i].completed <==>
        lesson.completed || exists j :: 0 <= j < |refs| && refs[j].slug == lesson.slug
  {
    InCompletedSlugs(refs, p, course.lessons.value[i].slug);
  }

  /** Without progress only the lesson's own flag marks it completed. */
  lemma NoProgressOwnFlagOnly(course: Collection, currentSlug: string, i: nat)
    requires course.lessons.Some? && i < |course.lessons.value|
    ensures LessonsList(course, currentSlug, None).value[i].completed == course.lessons.value[i].completed
  {
  }

  /** Every lesson that shares the current slug is active; no other lesson is. */
  lemma ActiveEntries(course: Collection, currentSlug: string, progress: Option<Progress>)
    requires course.lessons.Some?
    ensures var entries := LessonsList(course, currentSlug, progress).value;
      forall i :: 0 <= i < |entries| ==> (entries[i].active <==> course.lessons.value[i].slug == currentSlug)
  {
  }

  /** The completed flags do not depend on the current slug, nor the active flags on progress. */
  lemma FlagsIndependent(course: Collection, s1: string, s2: string, p1: Option<Progress>, p2: Option<Progress>, i: nat)
    requires course.lessons.Some? && i < |course.lessons.value|
    ensures LessonsList(course, s1, p1).value[i].completed == LessonsList(course, s2, p1).value[i].completed
    ensures LessonsList(course, s1, p1).value[i].active == LessonsList(course, s1, p2).value[i].active
  {
  }

  /**
   * The list and the "Keep Learning" card agree. When no lesson carries its own
   * completed flag, there is no current lesson exactly when every entry of the
   * list is completed ...
   */
  lemma NoCurrentLessonIffAllEntriesCompleted(lessons: seq<Lesson>, currentSlug: string, done: seq<string>)
    requires forall j :: 0 <= j < |lessons| ==> !lessons[j].completed
    ensures var entries := EntriesFrom(lessons, 0, currentSlug, done);
      InProgressCollection.CurrentLesson(lessons, done).None? <==>
      forall j :: 0 <= j < |entries| ==> entries[j].completed
  {
    InProgressCollection.CurrentLessonIsFirstIncomplete(lessons, done);
  }

  /** ... and otherwise the current lesson sits at the list's first entry that is not completed. */
  lemma CurrentLessonIsFirstOpenEntry(lessons: seq<Lesson>, currentSlug: string, done: seq<string>)
    requires forall j :: 0 <= j < |lessons| ==> !lessons[j].completed
    requires InProgressCollection.CurrentLesson(lessons, done).Some?
    ensures var entries := EntriesFrom(lessons, 0, currentSlug, done);
      exists k :: 0 <= k < |lessons| && lessons[k] == InProgressCollection.CurrentLesson(lessons, done).value &&
                  !entries[k].completed && forall j :: 0 <= j < k ==> entries[j].completed
  {
    InProgressCollection.CurrentLessonIsFirstIncomplete(lessons, done);
  }
}
