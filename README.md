# Lesson progress and lesson list status

A model of the two pieces of logic in the egghead course pages that go beyond
layout:

- the **"Keep Learning" card** (`InProgressCollection`): from a collection and
  the learner's optional progress record it derives the completed lesson slugs,
  the lesson sequence (`lessons`, or the `items` of type `'lesson'`), the
  current lesson (the first one whose slug is not completed), the path the card
  links to (the current lesson's path, else the collection's), whether the
  learner is in progress, the lessons left and the percentage complete, and
  from these which blocks of the card are shown;
- the **lesson list** (`CollectionLessonsList` and its `Item`): one entry per
  lesson, in order and keyed by slug, each completed (own flag, or slug among the
  progress record's completed lessons) and/or active (slug equals the current
  slug), labelled with a check mark or its 1-based position, and linked to its
  lesson's path unless it is active.

Both are pure derivations, so the model is datatypes, functions and lemmas:

- `wrappers.dfy`: `Option`, standing for JavaScript's `undefined`.
- `resources.dfy`: `Lesson`, `Item`, `Progress`, `Collection` with every
  optional field explicit, string truthiness, and the completed-slug list both
  components build.
- `in_progress_collection.dfy`: the deriver (`Derive`), the card as written
  (`Render`) and the card with the "Up Next" fallback corrected (`CorrectedRender`).
- `collection_lessons_list.dfy`: the list (`LessonsList`).

Modelling choices, following the code: a missing count reads as 0 (a
destructuring default); `collection.lessons` is used whenever it is present,
even when it is empty, because an empty array is truthy; an optional string is
"truthy" when present and non-empty, so a lesson with an empty `path` falls
back to the collection's path. `percent_complete` is a floating-point division
with no guard in the code; the model returns `None` for a zero lesson count
(where the code produces NaN or Infinity). The code applies no clamp at a zero
count, and neither does the model.

`Render` is the card as written, including the "Up Next" link's fallback href
`'3'` where the title and play-button links fall back to `'#'` (see
"## Findings"); `CorrectedRender` is the same card with `'#'` there.

## Model

| member | source | states |
|---|---|---|
| Resources.SlugsOf | src/components/pages/home/in-progress-collection.tsx:30-34 | mapping lesson references to slugs keeps the length and puts the i-th reference's slug at position i |
| Resources.CompletedSlugs | src/components/pages/home/in-progress-collection.tsx:30-34 | the completed slugs are empty without progress or without `completed_lessons`, else exactly their slugs in order |
| Resources.InCompletedSlugs | src/components/pages/lessons/collection-lessons-list.tsx:57-61 | a slug is among the completed slugs iff some entry of `completed_lessons` carries it |
| InProgressCollection.LessonItems | src/components/pages/home/in-progress-collection.tsx:37 | the lesson items are no more than the items, and each comes from an item of type `'lesson'` |
| InProgressCollection.Incomplete | src/components/pages/home/in-progress-collection.tsx:39-42 | a lesson is kept iff it is in the sequence and its slug is not completed, and no more lessons are kept than the sequence has |
| InProgressCollection.IncompleteAppend | src/components/pages/home/in-progress-collection.tsx:40-42 | filtering out completed lessons distributes over concatenation, so the kept lessons stay in sequence order |
| InProgressCollection.PercentComplete | src/components/pages/home/in-progress-collection.tsx:47 | the percentage is undefined exactly at a zero lesson count; otherwise times the lesson count it equals completed × 100 |
| InProgressCollection.NoProgressDefaults | src/components/pages/home/in-progress-collection.tsx:23-34 | without progress all counts are 0, the completed-slug list is empty, and the learner is not in progress |
| InProgressCollection.DerivedCompletedSlugs | src/components/pages/home/in-progress-collection.tsx:30-34 | the derived slug list has the length of `completed_lessons` and their slugs in the same order |
| InProgressCollection.LessonSequenceChoice | src/components/pages/home/in-progress-collection.tsx:36-37 | present `lessons` are the sequence even when empty; otherwise the lesson items, or none without items |
| InProgressCollection.LessonItemsAppend | src/components/pages/home/in-progress-collection.tsx:37 | filtering the items distributes over concatenation, so it preserves order |
| InProgressCollection.LessonItemsSingle | src/components/pages/home/in-progress-collection.tsx:37 | one item contributes its lesson iff its type is `'lesson'` |
| InProgressCollection.LessonItemsComplete | src/components/pages/home/in-progress-collection.tsx:37 | every item of type `'lesson'` contributes its lesson |
| InProgressCollection.CurrentLessonIsFirstIncomplete | src/components/pages/home/in-progress-collection.tsx:39-43 | no current lesson iff every slug is completed (including no lessons); otherwise it is a lesson of the sequence, not completed, with every lesson before it completed |
| InProgressCollection.CurrentLessonAt | src/components/pages/home/in-progress-collection.tsx:39-43 | a lesson not completed whose predecessors all are is the current lesson |
| InProgressCollection.ThirdLessonIsCurrent | src/components/pages/home/in-progress-collection.tsx:39-43 | with lessons A, B completed and C not, among A B C D, the current lesson is C |
| InProgressCollection.ResourcePathFallback | src/components/pages/home/in-progress-collection.tsx:48 | the card links to the current lesson's path when it has one, else to the collection's path |
| InProgressCollection.AllCompletedFallsBack | src/components/pages/home/in-progress-collection.tsx:39-48 | when every lesson is completed there is no current lesson and the card links to the collection's path |
| InProgressCollection.FirstIncompleteIsTarget | src/components/pages/home/in-progress-collection.tsx:39-48 | the first incomplete lesson, when it has a path, is the current lesson and the link target |
| InProgressCollection.InProgressIff | src/components/pages/home/in-progress-collection.tsx:45 | in progress iff a progress record exists and is not completed |
| InProgressCollection.CountsRules | src/components/pages/home/in-progress-collection.tsx:46-47 | lessons left is lesson count minus completed count; the percentage is defined iff the lesson count is nonzero and then solves percent × count = completed × 100 |
| InProgressCollection.PercentBounds | src/components/pages/home/in-progress-collection.tsx:46-47 | with 0 ≤ completed ≤ count and count > 0 the percentage is in [0, 100], and 100 exactly when no lesson is left |
| InProgressCollection.RenderConditions | src/components/pages/home/in-progress-collection.tsx:92-146 | progress line, progress bar and "Up Next" appear iff in progress; the series title iff not in progress and a series exists |
| InProgressCollection.NoProgressRendersNoProgressBlocks | src/components/pages/home/in-progress-collection.tsx:92-146 | without progress none of the progress blocks is shown and the series title is |
| InProgressCollection.ProgressLineValues | src/components/pages/home/in-progress-collection.tsx:95-100 | the progress line shows the time left and the lesson count minus the completed count |
| InProgressCollection.ZeroCountBarHasNoFiniteWidth | src/components/pages/home/in-progress-collection.tsx:118-123 | a started collection with a zero lesson count still shows the bar, with a width that is not a finite number |
| InProgressCollection.ImageLinkCondition | src/components/pages/home/in-progress-collection.tsx:53-54 | the image link is shown iff there is a cover and a resource path, and then it links to the resource path |
| InProgressCollection.LinkHref | src/components/pages/home/in-progress-collection.tsx:79 | a card link's href is never empty and is the resource path whenever that is truthy |
| InProgressCollection.UpNextHrefDiverges | src/components/pages/home/in-progress-collection.tsx:131 | without a resource path the "Up Next" href as written (`UpNextHrefAsWritten`) is `'3'` where the other links use `'#'` |
| InProgressCollection.UpNextFallsBackToThree | src/components/pages/home/in-progress-collection.tsx:126-131 | on a started card without a resource path, "Up Next" is shown linking to `'3'` while the title links to `'#'` |
| InProgressCollection.UpNextThreeExample | src/components/pages/home/in-progress-collection.tsx:131 | progress `{is_completed: false}`, `lessons: []` and no `path` render "Up Next" with href `'3'` and no title |
| InProgressCollection.CardLinksAgree | src/components/pages/home/in-progress-collection.tsx:79-131 | in the corrected card the title, play-button and "Up Next" links all lead to the resource path, or to `'#'` without one; it equals the card as written whenever there is a resource path |
| InProgressCollection.UpNextNamesCurrentLesson | src/components/pages/home/in-progress-collection.tsx:126-145 | while in progress, "Up Next" shows the current lesson's title |
| CollectionLessonsList.ItemMarker | src/components/pages/lessons/collection-lessons-list.tsx:107 | the label is a check mark iff the entry is completed, and otherwise the position `index + 1` |
| CollectionLessonsList.EntriesFrom | src/components/pages/lessons/collection-lessons-list.tsx:56-76 | one entry per lesson, the i-th built from the i-th lesson at index i |
| CollectionLessonsList.ListRenderedIffLessons | src/components/pages/lessons/collection-lessons-list.tsx:36 | a list is rendered iff the course has `lessons` |
| CollectionLessonsList.EntryRules | src/components/pages/lessons/collection-lessons-list.tsx:56-137 | one entry per lesson, keyed by its slug; completed iff own flag or slug completed; active iff slug is current; check mark iff completed, else position i+1; unlinked iff active, else linked to the lesson's path |
| CollectionLessonsList.CompletedFromProgress | src/components/pages/lessons/collection-lessons-list.tsx:57-61 | an entry is completed iff its lesson's flag is set or some `completed_lessons` entry has its slug |
| CollectionLessonsList.NoProgressOwnFlagOnly | src/components/pages/lessons/collection-lessons-list.tsx:57-61 | without progress an entry is completed iff its lesson's own flag is set |
| CollectionLessonsList.ActiveEntries | src/components/pages/lessons/collection-lessons-list.tsx:67 | every entry whose slug is the current slug is active and no other is |
| CollectionLessonsList.FlagsIndependent | src/components/pages/lessons/collection-lessons-list.tsx:60-70 | the completed flag does not depend on the current slug, nor the active flag on progress |
| CollectionLessonsList.NoCurrentLessonIffAllEntriesCompleted | src/components/pages/lessons/collection-lessons-list.tsx:56-61 | with no own completed flags, the card has no current lesson iff every entry of the list is completed |
| CollectionLessonsList.CurrentLessonIsFirstOpenEntry | src/components/pages/lessons/collection-lessons-list.tsx:56-61 | with no own completed flags, the card's current lesson sits at the list's first entry that is not completed |

## Left out

- `src/lib/courses.ts` (`loadCourse`, `loadAllCourses`): single GraphQL requests over a network client, with no logic beyond reading the response.
- The scroll-into-view effect of the lesson list (`useState`, `useEffect`, `scroller.scrollTo`): framework lifecycle and a foreign scrolling library.
- `convertTimeWithTitles`: defined outside these files; the model carries the raw seconds (`timeLeft`, `duration`) where it is called.
- Analytics `track` calls, image and link components, CSS classes, media-query heights and the play and check icons: presentation only.
- InProgressCollection.PercentComplete: the percentage is an exact real; floating-point rounding is not modelled, and NaN and Infinity at a zero count are both `None`.
- Counts are unbounded integers; the source's counts are JavaScript numbers from the data source, and a count that is present but `null` (which a destructuring default does not replace) is not distinguished from a number.
- Optional boolean flags (`is_completed`, `lesson.completed`) are `bool`, a missing flag reading as `false` as JavaScript's truthiness does.
- A `null` `completed_lessons` (read through lodash `get`, which keeps `null`), or a `null` `items` when `lessons` is absent (a destructuring default does not replace `null`), makes the components throw a TypeError at `.map` or `.filter`; the model has only "missing" for these fields and reads both as an empty list.
- The series title is modelled as a string; a series object without a title is not distinguished.

## Findings

| source | as written | input that shows it | evidently intended | confidence | as-written member | corrected member |
|---|---|---|---|---|---|---|
| src/components/pages/home/in-progress-collection.tsx:131 | the "Up Next" link falls back to `'3'` when there is no resource path | a collection with progress `{is_completed: false}`, every lesson completed, and no `path` | the `'#'` fallback of the title and play-button links (lines 79 and 104) | medium, not executed | InProgressCollection.UpNextFallsBackToThree | InProgressCollection.CardLinksAgree |
