/**
 * The "Keep Learning" card for a collection the learner has started: which
 * lesson comes next, where the card links to, how far the learner has got,
 * and which blocks of the card are shown.
 */
module InProgressCollection {
  import opened Wrappers
  import opened Resources

  /** The counts read from a progress record, each missing one defaulting to 0. */
  datatype Counts = Counts(completedLessonCount: int, timeLeft: int, lessonCount: int, isCompleted: bool)

  /** `collection_progress || {}` destructured with defaults. */
  function ReadCounts(p: Option<Progress>): Counts {
    if p.None? then Counts(0, 0, 0, false)
    else Counts(CountOrZero(p.value.completedLessonCount), CountOrZero(p.value.timeLeft),
                CountOrZero(p.value.lessonCount), p.value.isCompleted)
  }

  /** `items.filter(item => item.type === 'lesson')`, read as lessons. */
  function LessonItems(items: seq<Item>): (r: seq<Lesson>)
    ensures |r| <= |items|
    ensures forall l :: l in r ==> exists j :: 0 <= j < |items| && items[j].kind == "lesson" && items[j].resource == l
  {
    if items == [] then []
    else if items[0].kind == "lesson" then [items[0].resource] + LessonItems(items[1..])
    else LessonItems(items[1..])
  }

  /** The lesson sequence: `collection.lessons` when present (even empty), else the lesson items. */
  function LessonSequence(c: Collection): seq<Lesson> {
    match c.lessons
    case Some(ls) => ls
    case None => LessonItems(if c.items.Some? then c.items.value else [])
  }

  /** `lessons.filter(lesson => !done.includes(lesson.slug))`. */
  function Incomplete(lessons: seq<Lesson>, done: seq<string>): (r: seq<Lesson>)
    ensures |r| <= |lessons|
    ensures forall l :: l in r <==> l in lessons && l.slug !in done
  {
    if lessons == [] then []
    else if lessons[0].slug !in done then [lessons[0]] + Incomplete(lessons[1..], done)
    else Incomplete(lessons[1..], done)
  }

  /** `first(...)` of the incomplete lessons: the lesson the learner continues with. */
  function CurrentLesson(lessons: seq<Lesson>, done: seq<string>): Option<Lesson> {
    var rest := Incomplete(lessons, done);
    if rest == [] then None else Some(rest[0])
  }

  /** `current_lesson?.path || path`. */
  function ResourcePath(current: Option<Lesson>, collectionPath: Option<string>): Option<string> {
    if current.Some? && Truthy(current.value.path) then current.value.path else collectionPath
  }

  /**
   * `completed_lesson_count * 100 / lesson_count`, a floating-point division in
   * the source. `None` stands for the non-finite result of a zero divisor.
   */
  function PercentComplete(completed: int, lessonCount: int): (r: Option<real>)
    ensures r.None? <==> lessonCount == 0
    ensures r.Some? ==> r.value * lessonCount as real == (completed * 100) as real
  {
    if lessonCount == 0 then None else Some((completed * 100) as real / lessonCount as real)
  }

  /** Every value the card derives from its collection. */
  datatype Derived = Derived(
    completedSlugs: seq<string>,
    lessons: seq<Lesson>,
    currentLesson: Option<Lesson>,
    isInProgress: bool,
    timeLeft: int,
    lessonsLeft: int,
    percentComplete: Option<real>,
    resourcePath: Option<string>)

  function Derive(c: Collection): Derived {
    var counts := ReadCounts(c.progress);
    var done := CompletedSlugs(c.progress);
    var lessons := LessonSequence(c);
    var current := CurrentLesson(lessons, done);
    Derived(
      done,
      lessons,
      current,
      c.progress.Some? && !counts.isCompleted,
      counts.timeLeft,
      counts.lessonCount - counts.completedLessonCount,
      PercentComplete(counts.completedLessonCount, counts.lessonCount),
      ResourcePath(current, c.path))
  }

  // ---------------------------------------------------------------------------
  // Rendering conditions

  /** The href of the title and play-button links: the resource path, or `'#'`. */
  function LinkHref(resourcePath: Option<string>): (r: string)
    ensures r != ""
    ensures Truthy(resourcePath) ==> r == resourcePath.value
  {
    if Truthy(resourcePath) then resourcePath.value else "#"
  }

  /**
   * The href of the "Up Next" link as the source writes it: its fallback is
   * `'3'` where the two other links of the card fall back to `'#'`.
   */
  function UpNextHrefAsWritten(resourcePath: Option<string>): string {
    if Truthy(resourcePath) then resourcePath.value else "3"
  }

  datatype ProgressLine = ProgressLine(timeLeft: int, lessonsLeft: int)
  /** The play button and the progress bar; `width` is the bar's percentage. */
  datatype ProgressBar = ProgressBar(playHref: string, width: Option<real>)
  datatype UpNext = UpNext(href: string, title: Option<string>)

  /** What the card shows; `None` marks a block that is not rendered. */
  datatype CardView = CardView(
    imageHref: Option<string>,
    title: string,
    titleHref: string,
    seriesTitle: Option<string>,
    progressLine: Option<ProgressLine>,
    progressBar: Option<ProgressBar>,
    upNext: Option<UpNext>)

  function Render(c: Collection): CardView {
    var d := Derive(c);
    var href := LinkHref(d.resourcePath);
    CardView(
      if Truthy(c.squareCover) && Truthy(d.resourcePath) then Some(d.resourcePath.value) else None,
      c.title,
      href,
      if !d.isInProgress && c.series.Some? then Some(c.series.value.title) else None,
      if d.isInProgress then Some(ProgressLine(d.timeLeft, d.lessonsLeft)) else None,
      if d.isInProgress then Some(ProgressBar(href, d.percentComplete)) else None,
      if d.isInProgress
      then Some(UpNext(UpNextHrefAsWritten(d.resourcePath),
                       if d.currentLesson.Some? then Some(d.currentLesson.value.title) else None))
      else None)
  }

  /** The card with the "Up Next" link falling back to `'#'` like the card's other links. */
  function CorrectedRender(c: Collection): CardView {
    var v := Render(c);
    if v.upNext.Some? then v.(upNext := Some(v.upNext.value.(href := LinkHref(Derive(c).resourcePath)))) else v
  }

  // ---------------------------------------------------------------------------
  // Properties

  /** Without a progress record every count is 0 and no lesson counts as completed. */
  lemma NoProgressDefaults(c: Collection)
    requires c.progress.None?
    ensures ReadCounts(c.progress) == Counts(0, 0, 0, false)
    ensures Derive(c).completedSlugs == []
    ensures !Derive(c).isInProgress && Derive(c).lessonsLeft == 0 && Derive(c).percentComplete.None?
  {
  }

  /** The completed-slug list is the slugs of `completed_lessons`, in order. */
  lemma DerivedCompletedSlugs(c: Collection, refs: seq<LessonRef>)
    requires c.progress.Some? && c.progress.value.completedLessons == Some(refs)
    ensures |Derive(c).completedSlugs| == |refs|
    ensures forall i :: 0 <= i < |refs| ==> Derive(c).completedSlugs[i] == refs[i].slug
  {
  }

  /** Present `lessons` win, however short; otherwise the lesson items are used. */
  lemma LessonSequenceChoice(c: Collection)
    ensures c.lessons.Some? ==> Derive(c).lessons == c.lessons.value
    ensures c.lessons.None? && c.items.None? ==> Derive(c).lessons == []
    ensures c.lessons.None? && c.items.Some? ==> Derive(c).lessons == LessonItems(c.items.value)
  {
  }

  /** Filtering the items distributes over concatenation: it keeps their order. */
  lemma {:induction false} LessonItemsAppend(a: seq<Item>, b: seq<Item>)
    ensures LessonItems(a + b) == LessonItems(a) + LessonItems(b)
  {
    if a == [] {
      assert a + b == b;
    } else {
      assert (a + b)[1..] == a[1..] + b;
      LessonItemsAppend(a[1..], b);
    }
  }

  /** A single item contributes its lesson exactly when its type is `'lesson'`. */
  lemma LessonItemsSingle(it: Item)
    ensures LessonItems([it]) == if it.kind == "lesson" then [it.resource] else []
  {
  }

  /** Filtering out completed lessons distributes over concatenation: it keeps their order. */
  lemma {:induction false} IncompleteAppend(a: seq<Lesson>, b: seq<Lesson>, done: seq<string>)
    ensures Incomplete(a + b, done) == Incomplete(a, done) + Incomplete(b, done)
  {
    if a == [] {
      assert a + b == b;
    } else {
      assert (a + b)[1..] == a[1..] + b;
      IncompleteAppend(a[1..], b, done);
    }
  }

  /** Every lesson-typed item contributes its lesson. */
  lemma {:induction false} LessonItemsComplete(items: seq<Item>, j: nat)
    requires j < |items| && items[j].kind == "lesson"
    ensures items[j].resource in LessonItems(items)
  {
    if j > 0 {
      LessonItemsComplete(items[1..], j - 1);
    }
  }

  /**
   * The current lesson is the lowest-index lesson whose slug is not completed,
   * and there is none exactly when every slug is completed (so also for no lessons).
   */
  lemma {:induction false} CurrentLessonIsFirstIncomplete(lessons: seq<Lesson>, done: seq<string>)
    ensures CurrentLesson(lessons, done).None? <==> forall i :: 0 <= i < |lessons| ==> lessons[i].slug in done
    ensures CurrentLesson(lessons, done).Some? ==>
      exists i :: 0 <= i < |lessons| && lessons[i] == CurrentLesson(lessons, done).value &&
        lessons[i].slug !in done && forall j :: 0 <= j < i ==> lessons[j].slug in done
  {
    if lessons != [] && lessons[0].slug in done {
      var tail := lessons[1..];
      CurrentLessonIsFirstIncomplete(tail, done);
      assert CurrentLesson(lessons, done) == CurrentLesson(tail, done);
      if CurrentLesson(tail, done).Some? {
        var i :| 0 <= i < |tail| && tail[i] == CurrentLesson(tail, done).value &&
          tail[i].slug !in done && forall j :: 0 <= j < i ==> tail[j].slug in done;
        assert lessons[i + 1] == tail[i];
        forall j | 0 <= j < i + 1 ensures lessons[j].slug in done {
          if j > 0 { assert lessons[j] == tail[j - 1]; }
        }
      } else {
        forall i | 0 <= i < |lessons| ensures lessons[i].slug in done {
          if i > 0 { assert lessons[i] == tail[i - 1]; }
        }
      }
    } else if lessons != [] {
      assert CurrentLesson(lessons, done) == Some(lessons[0]);
    }
  }

  /** Conversely, a lesson that is not completed while all before it are is the current one. */
  lemma {:induction false} CurrentLessonAt(lessons: seq<Lesson>, done: seq<string>, k: nat)
    requires k < |lessons| && lessons[k].slug !in done
    requires forall j :: 0 <= j < k ==> lessons[j].slug in done
    ensures CurrentLesson(lessons, done) == Some(lessons[k])
  {
    if k > 0 {
      CurrentLessonAt(lessons[1..], done, k - 1);
      assert Incomplete(lessons, done) == Incomplete(lessons[1..], done);
    }
  }

  /** The card links to the current lesson's path when it has one, else to the collection's path. */
  lemma ResourcePathFallback(c: Collection)
    ensures var d := Derive(c);
      (d.currentLesson.Some? && Truthy(d.currentLesson.value.path) ==> d.resourcePath == d.currentLesson.value.path) &&
      (d.currentLesson.None? || !Truthy(d.currentLesson.value.path) ==> d.resourcePath == c.path)
  {
  }

  /** When every lesson is completed the card falls back to the collection's own path. */
  lemma AllCompletedFallsBack(c: Collection)
    requires forall i :: 0 <= i < |LessonSequence(c)| ==> LessonSequence(c)[i].slug in CompletedSlugs(c.progress)
    ensures Derive(c).currentLesson.None? && Derive(c).resourcePath == c.path
  {
  }

  /**
   * The lesson the card links to: the first lesson not yet completed, when it
   * has a path.
   */
  lemma FirstIncompleteIsTarget(c: Collection, k: nat)
    requires k < |LessonSequence(c)|
    requires LessonSequence(c)[k].slug !in CompletedSlugs(c.progress)
    requires forall j :: 0 <= j < k ==> LessonSequence(c)[j].slug in CompletedSlugs(c.progress)
    requires Truthy(LessonSequence(c)[k].path)
    ensures Derive(c).currentLesson == Some(LessonSequence(c)[k])
    ensures Derive(c).resourcePath == LessonSequence(c)[k].path
  {
    CurrentLessonAt(LessonSequence(c), CompletedSlugs(c.progress), k);
  }

  /** The learner is in progress exactly when a progress record exists and is not completed. */
  lemma InProgressIff(c: Collection)
    ensures Derive(c).isInProgress <==> c.progress.Some? && !c.progress.value.isCompleted
  {
  }

  /** `lessons_left` and `percent_complete` follow from the two counts. */
  lemma CountsRules(c: Collection)
    ensures var counts := ReadCounts(c.progress);
      Derive(c).lessonsLeft == counts.lessonCount - counts.completedLessonCount &&
      (Derive(c).percentComplete.None? <==> counts.lessonCount == 0) &&
      (Derive(c).percentComplete.Some? ==>
        Derive(c).percentComplete.value * counts.lessonCount as real == (counts.completedLessonCount * 100) as real)
  {
  }

  /**
   * With consistent counts (0 <= completed <= total, total > 0) the percentage
   * lies in [0, 100], and it is 100 exactly when no lesson is left.
   */
  lemma PercentBounds(completed: int, lessonCount: int)
    requires 0 <= completed <= lessonCount && lessonCount > 0
    ensures var p := PercentComplete(completed, lessonCount).value;
      0.0 <= p <= 100.0 && (p == 100.0 <==> lessonCount - completed == 0)
  {
  }

  /** The progress line, progress bar and "Up Next" block appear only while in progress; the series title only when not. */
  lemma RenderConditions(c: Collection)
    ensures var v := Render(c); var d := Derive(c);
      (v.progressLine.Some? <==> d.isInProgress) &&
      (v.progressBar.Some? <==> d.isInProgress) &&
      (v.upNext.Some? <==> d.isInProgress) &&
      (v.seriesTitle.Some? <==> !d.isInProgress && c.series.Some?)
  {
  }

  /** Without progress only the title, the image and the series title can appear. */
  lemma NoProgressRendersNoProgressBlocks(c: Collection)
    requires c.progress.None?
    ensures var v := Render(c);
      v.progressLine.None? && v.progressBar.None? && v.upNext.None? &&
      (c.series.Some? ==> v.seriesTitle == Some(c.series.value.title))
  {
  }

  /** The progress line shows the time left and `lesson_count - completed_lesson_count`. */
  lemma ProgressLineValues(c: Collection)
    requires Render(c).progressLine.Some?
    ensures var counts := ReadCounts(c.progress);
      Render(c).progressLine.value == ProgressLine(counts.timeLeft, counts.lessonCount - counts.completedLessonCount)
  {
  }

  /**
   * A started collection whose record reports no lessons still shows the bar,
   * with a width that is not a number: the division by zero is not guarded.
   */
  lemma ZeroCountBarHasNoFiniteWidth(c: Collection)
    requires c.progress.Some? && !c.progress.value.isCompleted
    requires CountOrZero(c.progress.value.lessonCount) == 0
    ensures Render(c).progressBar.Some? && Render(c).progressBar.value.width.None?
  {
  }

  /** The image links to the resource path and is shown only when a cover and a path exist. */
  lemma ImageLinkCondition(c: Collection)
    ensures Render(c).imageHref.Some? <==> Truthy(c.squareCover) && Truthy(Derive(c).resourcePath)
    ensures Render(c).imageHref.Some? ==> Render(c).imageHref == Derive(c).resourcePath
  {
  }

  /**
   * In the corrected card all links lead to the same place: the resource path,
   * or `'#'` without one; it differs from the card as written only when there is
   * no resource path.
   */
  lemma CardLinksAgree(c: Collection)
    ensures Truthy(Derive(c).resourcePath) ==> CorrectedRender(c) == Render(c)
    ensures var v := CorrectedRender(c);
      v.titleHref == LinkHref(Derive(c).resourcePath) &&
      (v.progressBar.Some? ==> v.progressBar.value.playHref == v.titleHref) &&
      (v.upNext.Some? ==> v.upNext.value.href == v.titleHref)
  {
  }

  /** The "Up Next" link as written breaks that agreement when there is no resource path. */
  lemma UpNextHrefDiverges(resourcePath: Option<string>)
    requires !Truthy(resourcePath)
    ensures UpNextHrefAsWritten(resourcePath) == "3" && LinkHref(resourcePath) == "#"
  {
  }

  /**
   * On a whole card: a started collection without a resource path shows "Up
   * Next" linking to `'3'` while its title links to `'#'`.
   */
  lemma UpNextFallsBackToThree(c: Collection)
    requires Derive(c).isInProgress && !Truthy(Derive(c).resourcePath)
    ensures Render(c).upNext.Some? && Render(c).upNext.value.href == "3"
    ensures Render(c).titleHref == "#"
  {
  }

  /** The concrete input: progress not completed, no lessons left to take, no collection path. */
  lemma UpNextThreeExample(c: Collection)
    requires c.progress == Some(Progress(None, None, None, false, None))
    requires c.lessons == Some([]) && c.path == None
    ensures Render(c).upNext == Some(UpNext("3", None)) && Render(c).titleHref == "#"
  {
    assert CurrentLesson([], CompletedSlugs(c.progress)) == None;
  }

  /** "Up Next" names the current lesson while in progress. */
  lemma UpNextNamesCurrentLesson(c: Collection)
    requires Derive(c).isInProgress && Derive(c).currentLesson.Some?
    ensures Render(c).upNext.value.title == Some(Derive(c).currentLesson.value.title)
  {
  }

  /** The example of four lessons, the first two completed: the third is current. */
  lemma ThirdLessonIsCurrent(a: Lesson, b: Lesson, cur: Lesson, d: Lesson, done: seq<string>)
    requires a.slug in done && b.slug in done && cur.slug !in done
    ensures CurrentLesson([a, b, cur, d], done) == Some(cur)
  {
    CurrentLessonAt([a, b, cur, d], done, 2);
  }
}
