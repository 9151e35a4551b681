# Verified models of the OPRAI knowledge ingestion, tool loop, tool responses and handle registry

This project models, in Dafny, the parts of the repository in which most of the logic sits, and proves
what they promise:

- **Chunking** (`Text`, `Words`, `GreedyFill`, `ParagraphFiller`, `Breadcrumbs`, `Sorting`, `Chunker`, `Sections`,
  `Recovery`). A page's text is cut into sections, by markdown headings or by anchors that a classifier proposes, and each section is
  filled paragraph by paragraph into chunks of at most `MAX_CHARS` characters that overlap by at most `OVERLAP`.
- **The vector store** (`PointNames`, `PointStore`, `WriteAttempts`, `VectorStore`, `PageVisit`, `Curated`, `Scheduler`). Points are
  named by document and chunk number and overwritten in place, never deleted by the crawler; pages are
  recognised by their hash, sources are skipped by the age of their freshest point, and the curated notes
  delete their source first.
- **Crawling** (`LinkCrawl`, `Semaphores`). The bounded same-host search, and the crawler's concurrent tasks with
  their source, page, host, classification and write permits, over all interleavings, early exits and exceptions.
- **The tool loop** (`ToolLoop`, `Providers`). The loop that lets a model call tools, written twice in the
  repository, once per provider, and shown here to refine one specification.
- **Tool responses and vote tallies** (`ResponseCap`, `Votes`), and **Telegram handles** (`Handles`).

Each method is proved against a specification function; the lemmas about that function, over all inputs,
all runs or all reachable states, are the results. `dafny verify dfyconfig.toml` verifies all of it.

## How the outside world is represented

- `MAX_CHARS` and `OVERLAP` are any numbers with 0 < OVERLAP and OVERLAP + 2 < MAX_CHARS; the program uses 1200 and 150.
  The other constants (80, 128, 100, the attempts, the permits, the intervals) are the program's.
- Heading matches, fetched links, model replies, embedding responses, write attempts and clock readings are
  parameters. A failing attempt is an arbitrary outcome; a write attempt that fails may or may not have reached the store.
- A point id is the UUIDv5 of a name (section 5.5 of RFC 9562). Points are keyed by the name, whose
  injectivity is proved; the hash behind the id is taken to be injective, and so is SHA-256 where a text is
  recognised by it (`PageVisit.RecognisedMeansSameText`).
- Amounts are real numbers, so the tallies are stated before any rounding.
- JSON scalars and keys are given by the text that `json.dumps` renders them as. Arguments of a tool call are
  represented by whether they parse. A run dispatches each tool at most once, so `dispatch` is a function.
- Handles are lower-cased on the ASCII letters, which are the letters Telegram handles consist of.
- A statement of SQL is one atomic step, which the unique index on handles may refuse; so is what a crawler task does between two awaits.

## Where the code differs from what it says of itself

- `services/oprai-tg-bot/app/db.py:54-55` says that a handle is released in the same statement that claims it. There are two
  statements. The unique index of `services/oprai-tg-bot/sql/schema.sql:274-275` keeps every handle unique all the same
  (`Handles.RunsStayUnique`); what overlap costs is that a call raises and its account does not get the handle.
  Exactly when that happens is `Handles.CallRaisesIff`, for any calls, and `Handles.CompetingCallEnds`, for calls that
  compete for one handle.
- `services/defi-query-service/tools.py:66` says that limits are never hit. A list whose first element is too long comes
  back with that element (`ResponseCap.HugeElementSurvives`); exactly when the limit is kept is
  `ResponseCap.CapFitsIff`. Capping twice is not always capping once (`ResponseCap.CapTwiceIff`).
- `services/knowledge-ingestion-service/crawl_all.py:2902-2907` presents the page hash as telling changed pages from unchanged
  ones. A page that shrinks and then reverts, or a write that fails part way, is taken for unchanged although the
  store does not hold it (`PointStore.RevertAfterShrinkIsSkipped`, `PointStore.PartialWriteSticks`). Over all
  histories of completed and failed writes, `WriteAttempts.RecognisedAfterAttemptsIff` says exactly when a hash is
  recognised, `WriteAttempts.HeldIff` exactly when the store holds a version, `WriteAttempts.RecognisedAreHeldIff`
  exactly when every recognised version is the one held, and `WriteAttempts.RetriedIff` exactly when a failed write
  is retried.
- On the markdown path, text before the first heading is dropped (`Chunker.MarkdownSectionsTile` starts at the first heading).
- A heading below a skipped level is filed under its sibling (`Breadcrumbs.SkippedLevelMisfiles`); exactly when
  breadcrumbs are the enclosing headings is `Breadcrumbs.CrumbsAreChainsIff`.
- After twenty rounds of tool calls both query functions return nothing at all (`Outcome.Nothing`).

## Model

| member | source | states |
|---|---|---|
| `Text.ParagraphsConcat` | services/knowledge-ingestion-service/crawl_all.py:2676 | Paragraph splitting is a homomorphism: at any blank line that no further newline follows, the paragraphs of the whole are those of the part before, then those of the part after |
| `Text.ParagraphsOfJoin` | services/knowledge-ingestion-service/crawl_all.py:2676-2684 | Splitting undoes joining: clean paragraphs joined by blank lines split into themselves again |
| `Text.ParagraphsClean` | services/knowledge-ingestion-service/crawl_all.py:2676 | Every paragraph is non-empty, has no white space at either end and contains no blank line |
| `Text.NonblankHasParagraph` | services/knowledge-ingestion-service/crawl_all.py:2676 | A text has no paragraph exactly when it is blank |
| `Text.StripMeans` | services/knowledge-ingestion-service/crawl_all.py:2730 | Stripping cuts nothing but white space off the two ends, and all of it |
| `Words.WordsSplit` | services/knowledge-ingestion-service/crawl_all.py:2620 | Splitting into words is a homomorphism: at any white space, the words of the whole are those before and then those after it |
| `Words.WordsOfWord` | services/knowledge-ingestion-service/crawl_all.py:2620 | A non-empty text without white space is its own only word |
| `Words.SpaceCodes` | services/knowledge-ingestion-service/crawl_all.py:2620 | White space is exactly what Python takes for it, code by code |
| `Sorting.SortFacts` | services/knowledge-ingestion-service/crawl_all.py:2759 | Sorting by key yields a sorted permutation |
| `Sorting.SortStable` | services/knowledge-ingestion-service/crawl_all.py:2759 | Elements of equal key keep their input order |
| `Sorting.SortedUnique` | services/knowledge-ingestion-service/crawl_all.py:2845 | Of a multiset with distinct keys there is only one sorted arrangement |
| `GreedyFill.GreedyIffFill` | services/knowledge-ingestion-service/crawl_all.py:2682-2697 | A sequence of groups is greedy (consecutive, non-empty, each item had room, no group could have taken the next item, each inherits from the one before) exactly when it is the one the filling loop builds |
| `ParagraphFiller.PiecesAreGreedy` | services/knowledge-ingestion-service/crawl_all.py:2682-2702 | The chunk texts are exactly those of the one greedy grouping of the paragraphs; each group carries a tail of at most OVERLAP characters of what the chunk before it kept last, and had no room left for the first paragraph of the next |
| `ParagraphFiller.PiecesLosslessIff` | services/knowledge-ingestion-service/crawl_all.py:2690-2696 | Dropping the overlap paragraphs gives back all paragraphs exactly when the truncation branch never fires |
| `ParagraphFiller.SmallParagraphsLossless` | services/knowledge-ingestion-service/crawl_all.py:2672-2704 | If no paragraph exceeds MAX_CHARS - OVERLAP - 2, dropping the overlaps gives back all paragraphs in order |
| `ParagraphFiller.LosslessLengthIff` | services/knowledge-ingestion-service/crawl_all.py:2682-2696 | For any limits and any length n: all texts whose paragraphs have at most n characters come back whole if and only if n + min(n, OVERLAP) + 2 <= MAX_CHARS |
| `ParagraphFiller.OneMoreCharacterIsLost` | services/knowledge-ingestion-service/crawl_all.py:2694-2696 | If twice OVERLAP is below MAX_CHARS the bound MAX_CHARS - OVERLAP - 2 is tight: of any text of two words one character longer a paragraph is not given back |
| `ParagraphFiller.ParagraphStartsKept` | services/knowledge-ingestion-service/crawl_all.py:2682-2702 | The first min(length, MAX_CHARS - OVERLAP - 2) characters of every paragraph occur in some chunk |
| `ParagraphFiller.PiecesBounds` | services/knowledge-ingestion-service/crawl_all.py:2695-2702 | Every chunk text is non-blank and at most MAX_CHARS long; only blank content has none |
| `ParagraphFiller.CarryIsTail` | services/knowledge-ingestion-service/crawl_all.py:2690-2694 | What a chunk inherits is exactly the last OVERLAP characters of the last paragraph its predecessor kept, or all of it, without the white space they start with |
| `ParagraphFiller.ChunksAreFull` | services/knowledge-ingestion-service/crawl_all.py:2682-2702 | Every chunk but the first starts with the last OVERLAP characters of the last paragraph of the chunk text before it, a blank line, and a paragraph that would have made the chunk before it too long |
| `ParagraphFiller.GroupsShape` | services/knowledge-ingestion-service/crawl_all.py:2682-2697 | In any greedy grouping of clean paragraphs the groups partition them, every group but a single oversized paragraph fits, and neighbours are linked by the overlap |
| `ParagraphFiller.ParaChunks` | services/knowledge-ingestion-service/crawl_all.py:2672-2704 | The loop returns the specified texts, numbered from the start index, and the next free index |
| `Breadcrumbs.Crumb` | services/knowledge-ingestion-service/crawl_all.py:2734-2735 | For any levels a breadcrumb ends in its own heading, has only earlier headings before it, and is at most as long as the level |
| `Breadcrumbs.ChainStep` | services/knowledge-ingestion-service/crawl_all.py:2735 | From one heading to the next, the chain of enclosing headings drops all levels at or above the new one and adds it |
| `Breadcrumbs.CrumbsAreChainsIff` | services/knowledge-ingestion-service/crawl_all.py:2728-2736 | All breadcrumbs up to any point are the chains of nearest earlier headings of smaller level exactly when every heading that is no deeper than the one before it has an enclosing heading for each smaller level |
| `Breadcrumbs.CrumbLengthIff` | services/knowledge-ingestion-service/crawl_all.py:2728-2736 | All breadcrumbs are as long as their levels exactly when the first level is 1 and levels never grow by more than one |
| `Breadcrumbs.NestedCrumbs` | services/knowledge-ingestion-service/crawl_all.py:2728-2736 | In well-nested text every breadcrumb is the chain of enclosing headings, one per level |
| `Breadcrumbs.SkippedLevelMisfiles` | services/knowledge-ingestion-service/crawl_all.py:2735 | Of two neighbouring headings of equal level below a skipped level, the second is always filed under the first, which is not among the headings that enclose it |
| `Chunker.FindAnchorMeans` | services/knowledge-ingestion-service/crawl_all.py:2613-2625 | An anchor is located at its first occurrence, else at the first occurrence of its first five words if it has at least three, else nowhere; a located anchor starts on a visible character |
| `Chunker.KeptFacts` | services/knowledge-ingestion-service/crawl_all.py:2759-2764 | Kept boundaries are located ones, more than 80 characters apart, begin with the first one, and every boundary is within 80 characters after a kept one |
| `Chunker.FoundAnchorsAreNear` | services/knowledge-ingestion-service/crawl_all.py:2751-2764 | Every boundary located from the anchors lies at most 80 characters after a kept one |
| `Sections.AnchorIsNear` | services/knowledge-ingestion-service/crawl_all.py:2751-2764 | Every anchor that is found, at p, is a boundary at p under its label, and some kept boundary lies at most 80 characters before p |
| `Sections.KeptIsAnchor` | services/knowledge-ingestion-service/crawl_all.py:2752-2764 | Every kept boundary has the position and the label of an anchor that was found |
| `Sections.KeptAreApart` | services/knowledge-ingestion-service/crawl_all.py:2760-2764 | Kept boundaries are more than 80 characters apart, and none of the found anchors lies before the first |
| `Sections.SortedAt` | services/knowledge-ingestion-service/crawl_all.py:2752-2759 | At each position the sorted boundaries are those of all anchors found there, in anchor order |
| `Chunker.KeptStarts` | services/knowledge-ingestion-service/crawl_all.py:2751-2768 | Boundaries are inside the text, ascending, and there is none exactly when no anchor was found |
| `Chunker.ArticleSectionsTile` | services/knowledge-ingestion-service/crawl_all.py:2774-2785 | The article sections are the stripped non-blank parts of a tiling of the text that starts at most 80 characters in and runs to the end |
| `Chunker.MarkdownSectionsTile` | services/knowledge-ingestion-service/crawl_all.py:2723-2732 | The markdown sections are the stripped parts of a tiling of the text from its first heading to the end |
| `Sections.MarkdownSectionMeans` | services/knowledge-ingestion-service/crawl_all.py:2726-2736 | A markdown section is the stripped text from its heading to the next, under the titles of its breadcrumb joined by " > " |
| `Sections.MarkdownChunksMean` | services/knowledge-ingestion-service/crawl_all.py:2737-2743 | Its chunks are that text alone if it has at most MAX_CHARS characters, and else the filled pieces, all under its path |
| `Sections.ArticleSectionMeans` | services/knowledge-ingestion-service/crawl_all.py:2774-2785 | An article section is the stripped text from a kept boundary to the next, under its label, or the preamble of more than 80 characters under the fallback label |
| `Sections.ChunkPathMeans` | services/knowledge-ingestion-service/crawl_all.py:2766-2792 | Without headings every chunk is filed under the label of an anchor that was found, or under the fallback label |
| `Chunker.SectionLossless` | services/knowledge-ingestion-service/crawl_all.py:2742-2743 | All chunks fall into one run per section, each under the path of its section, and without overlaps a run is the paragraphs of its section, if that is short markdown or its paragraphs are small |
| `Recovery.ParagraphsOfStrip` | services/knowledge-ingestion-service/crawl_all.py:2676 | Stripping a text keeps its paragraphs |
| `Recovery.CutsFacts` | services/knowledge-ingestion-service/crawl_all.py:2722-2785 | Whichever path is taken, the text is cut into parts that tile it from the first heading, or from at most 80 characters in, to the end |
| `Recovery.TextIsGivenBackIff` | services/knowledge-ingestion-service/crawl_all.py:2707-2796 | End to end, on every path: the chunks of a text, run after run and without overlaps, give back exactly the paragraphs of the parts it is cut into, in order, iff the truncation branch cuts nothing off any part |
| `Recovery.TextIsGivenBack` | services/knowledge-ingestion-service/crawl_all.py:2707-2796 | In particular they do if every part is short markdown or has small paragraphs |
| `Chunker.ChunkTextFacts` | services/knowledge-ingestion-service/crawl_all.py:2707-2796 | For any text, anchors and headings: at least one chunk, ids 0..n-1 in order, none longer than MAX_CHARS; blank text gives one empty chunk, other text no blank one |
| `Chunker.SectionChunks` | services/knowledge-ingestion-service/crawl_all.py:2737-2743 | One markdown section yields its text as one chunk, or the filled pieces, numbered on |
| `Chunker.ChunkMarkdown` | services/knowledge-ingestion-service/crawl_all.py:2722-2743 | The loop over headings lays out the sections, each under its breadcrumb path, numbered through |
| `Chunker.SpaceOut` | services/knowledge-ingestion-service/crawl_all.py:2760-2764 | The filter keeps the specified boundaries |
| `Chunker.FindBoundaries` | services/knowledge-ingestion-service/crawl_all.py:2751-2764 | Locating, sorting and filtering yields the kept boundaries, of which `Sections` says, anchor by anchor, what they are |
| `Chunker.CollectSections` | services/knowledge-ingestion-service/crawl_all.py:2774-2785 | The section list is that of the plan: a preamble if longer than 80 characters, then each boundary up to the next |
| `Chunker.ChunkArticle` | services/knowledge-ingestion-service/crawl_all.py:2774-2792 | The article chunks are those of the planned sections, numbered through |
| `Chunker.ChunkText` | services/knowledge-ingestion-service/crawl_all.py:2707-2796 | Every path returns the specified chunks, with the guarantees of `ChunkTextFacts`; where they come from is stated in `Sections` and `Recovery` |
| `PointNames.DecimalMeans` | services/knowledge-ingestion-service/crawl_all.py:2506 | The decimal form of a number consists of digits that denote it, without a leading zero |
| `PointNames.PointNameInjective` | services/knowledge-ingestion-service/crawl_all.py:2505-2506 | No two pairs of document id and chunk number share the name `doc_id:idx`, whatever colons and digits the ids contain |
| `PointStore.PutAt` | services/knowledge-ingestion-service/crawl_all.py:2952-2988 | A completed upsert stores every chunk under the name of its document and number, with its own vector, the source, the page hash and the time, and leaves every other point as it was |
| `PointStore.StoreIsHistory` | services/knowledge-ingestion-service/crawl_all.py:2931-2998 | After any history of completed upserts point i of a document exists iff i is below the largest chunk count ever written for it, and holds the latest version with more than i chunks |
| `PointStore.RecognisedIff` | services/knowledge-ingestion-service/crawl_all.py:2913-2926 | Of completed upserts: a hash is recognised iff some write with it has more chunks than every later write of the document |
| `PointStore.LatestIsRecognised` | services/knowledge-ingestion-service/crawl_all.py:2899-2928 | The version written last is always recognised |
| `PointStore.GrowingRecognisesOnlyLatest` | services/knowledge-ingestion-service/crawl_all.py:2899-2928 | If the chunk counts of a document never shrink, only its last version is recognised |
| `PointStore.RevisitIsNoOp` | services/knowledge-ingestion-service/crawl_all.py:3147-3168 | From any store, visiting the same page version again changes nothing |
| `PointStore.StoreIsCurrent` | services/knowledge-ingestion-service/crawl_all.py:3147-3168 | Over any run of visits with counts that never shrink, the points of a document are exactly the chunks of a visited version with the hash seen last: a skip hides no change |
| `PointStore.WriteIsCleanIff` | services/knowledge-ingestion-service/crawl_all.py:2984-2988 | A visit that writes leaves only points of the new version exactly when no stored chunk number lies beyond its chunks |
| `PointStore.RevertAfterShrinkIsSkipped` | services/knowledge-ingestion-service/crawl_all.py:3149-3152 | Long, short, long again: the third visit is a skip and the store keeps the short version's first chunk |
| `PointStore.PartialWriteSticks` | services/knowledge-ingestion-service/crawl_all.py:2984-2994 | After a failure part way the next visit changes nothing: the missing chunks stay missing, or as they were before |
| `WriteAttempts.StoreIsAttempts` | services/knowledge-ingestion-service/crawl_all.py:2931-2998 | After any history of attempts, completed or failed after any number of points, point i of a document exists iff some attempt wrote more than i points of it, and holds the latest one that did |
| `WriteAttempts.RecognisedAfterAttemptsIff` | services/knowledge-ingestion-service/crawl_all.py:2913-2926 | After any such history a hash is recognised iff some attempt with it wrote a point and more points than every later attempt of the document |
| `WriteAttempts.RetriedIff` | services/knowledge-ingestion-service/crawl_all.py:2984-2994 | After a write of n points of a page, on any store, the next visit writes the page iff n is 0 and its hash was not recognised before |
| `WriteAttempts.HeldIff` | services/knowledge-ingestion-service/crawl_all.py:2931-2998 | The store holds exactly the version of an attempt iff that was completed, nothing was written for the document after it, and no attempt ever wrote more points, given that the timestamps of its attempts differ |
| `WriteAttempts.RecognisedAreHeldIff` | services/knowledge-ingestion-service/crawl_all.py:2899-2928 | Every recognised version of a document is the one the store holds iff nothing was ever written for it, or the last attempt that wrote anything was completed and none ever wrote more |
| `WriteAttempts.LastIsHeldIff` | services/knowledge-ingestion-service/crawl_all.py:2931-2998 | After completed writes the store holds exactly the last version iff no version was ever longer |
| `WriteAttempts.CompletedReplay` | services/knowledge-ingestion-service/crawl_all.py:2984-2998 | Histories of completed upserts are the case in which every attempt wrote all points |
| `VectorStore.SortedResponse` | services/knowledge-ingestion-service/crawl_all.py:2845 | Sorting any permutation of an embedding response by index gives each text its own vector |
| `VectorStore.EmbedBatch` | services/knowledge-ingestion-service/crawl_all.py:2839-2850 | Succeeds iff one of five attempts does, and then with the vectors of the texts in order |
| `VectorStore.EmbedAll` | services/knowledge-ingestion-service/crawl_all.py:2946-2949 | Batching by 128 gives the vectors of all texts in order; it fails only if one of the batches failed five times, and succeeds only if each was answered |
| `VectorStore.Collection.Upsert` | services/knowledge-ingestion-service/crawl_all.py:2988 | A batch is written point after point |
| `VectorStore.Collection.DeleteSource` | services/knowledge-ingestion-service/curated_notes.py:261-262 | Afterwards a point exists iff it did before and is of another source, or the delete did not reach the store; every point that is left is as it was |
| `VectorStore.Collection.IsPageUnchanged` | services/knowledge-ingestion-service/crawl_all.py:2913-2928 | True iff the store answers and holds a point of the document with the non-empty hash |
| `VectorStore.Collection.ShouldSkipSource` | services/knowledge-ingestion-service/crawl_all.py:2876-2896 | True iff the store answers and the freshest point of the source exists and is younger than the interval |
| `VectorStore.Intervals` | services/knowledge-ingestion-service/crawl_all.py:2856-2861 | The intervals in seconds: an hour, a day, a week, thirty days, and a week for anything else |
| `VectorStore.WriteAllAgain` | services/knowledge-ingestion-service/crawl_all.py:2986-2994 | Writing the same points twice is writing them once, so retrying a batch is harmless even if the store had taken the attempt that failed |
| `VectorStore.Collection.WriteBatch` | services/knowledge-ingestion-service/crawl_all.py:2986-2994 | Succeeds iff one of three attempts does; the batch is in the store, once, iff one of them reached it, whatever the client was told |
| `VectorStore.Collection.WriteBatches` | services/knowledge-ingestion-service/crawl_all.py:2984-2994 | All points are written as if one at a time, or the batches before the one that failed three times, and that one iff an attempt reached the store |
| `VectorStore.WrittenIsStored` | services/knowledge-ingestion-service/crawl_all.py:2952-2988 | Writing the points of numbered chunks stores each chunk under its number with the vector of its own content |
| `VectorStore.Collection.UpsertChunks` | services/knowledge-ingestion-service/crawl_all.py:2931-2998 | On success every chunk is stored under its document and number, with the vector of its own content, the source, the page hash and the time; otherwise nothing because an embedding batch of 128 failed five times, or the points up to the write batch of 100 that failed three times |
| `PageVisit.PageIsValid` | services/knowledge-ingestion-service/crawl_all.py:3164-3168 | What a visit writes is a valid page version: chunks numbered through, a vector each, a non-empty hash |
| `PageVisit.RecognisedMeansSameText` | services/knowledge-ingestion-service/crawl_all.py:3147-3152 | While chunk counts never shrink, a text is skipped iff it is the text written last |
| `PageVisit.ProcessPage` | services/knowledge-ingestion-service/crawl_all.py:3142-3168 | Too short, recognised, dropped or written, with the exact condition of each and the exact new store; once written, every chunk of the text is stored with the vector of its own content and the hash of the text; completed or skipped it is one `Visit`, and in any case one attempt of `WriteAttempts` |
| `Curated.CuratedStore` | services/knowledge-ingestion-service/curated_notes.py:260-270 | From any prior store, point by point: a chunk of a note, or a point of a source that is not curated, or nothing |
| `Curated.CuratedExactly` | services/knowledge-ingestion-service/curated_notes.py:260-270 | The points of each curated source are exactly the chunks of its current note, without a stale tail |
| `Curated.OtherSourcesUntouchedIff` | services/knowledge-ingestion-service/curated_notes.py:260-270 | A point of another source is untouched exactly when no chunk of a note has its name |
| `Curated.CuratedTwice` | services/knowledge-ingestion-service/curated_notes.py:260-270 | Running the loop again changes nothing but timestamps |
| `Curated.PagesAreCurated` | services/knowledge-ingestion-service/curated_notes.py:263-270 | The notes become valid page versions of distinct sources |
| `Curated.CuratedIsHeld` | services/knowledge-ingestion-service/curated_notes.py:260-270 | After the loop, from any prior store, the points of source `<note>_curated` are exactly the chunks of the stripped note as document `<note>_curated`, each with the vector of its own content |
| `Curated.WriteNote` | services/knowledge-ingestion-service/curated_notes.py:266-270 | The chunks of a note are put, or as many points as the upsert had written when it failed |
| `Curated.IngestNote` | services/knowledge-ingestion-service/curated_notes.py:261-270 | One round leaves exactly the chunks of the note under source `<note>_curated` and all points of other sources whose names they do not take; if the delete raises the old points are all there or all gone, and if the upsert fails the source is left deleted and written in part |
| `Curated.IngestNotes` | services/knowledge-ingestion-service/curated_notes.py:257-271 | The loop curates the store, so that of every note exactly its chunks are held, or stops at one note, untouched, deleted or written in part, with all earlier ones done |
| `Scheduler.FreshestDecides` | services/knowledge-ingestion-service/crawl_all.py:2878-2894 | Looking at the one freshest point decides whether any point of the source is younger than the interval |
| `Scheduler.StaysCovered` | services/knowledge-ingestion-service/crawl_all.py:2974-2988 | Through all later ticks the source keeps a point at least as fresh as any a crawl has written |
| `Scheduler.NeverCrawledEarly` | services/knowledge-ingestion-service/crawl_all.py:3395-3397 | Unless the store is down, no crawl falls within the interval after any timestamp that a point of the source had before, from an earlier crawl or from before the run |
| `Scheduler.NoPointsNeverSkipped` | services/knowledge-ingestion-service/crawl_all.py:2888-2889 | A source without points is crawled at every tick |
| `Scheduler.EmptyCrawlIsRepeated` | services/knowledge-ingestion-service/crawl_all.py:3395-3397 | A crawl that writes nothing is repeated at the next tick |
| `Scheduler.DueTickCrawls` | services/knowledge-ingestion-service/crawl_all.py:3395-3397 | A tick an interval and a write delay after a crawl crawls, unless one in between did |
| `Scheduler.CrawlGapIsBounded` | services/knowledge-ingestion-service/crawl_all.py:3395-3397 | Consecutive crawls are at most the interval, the write delay and one tick apart |
| `Scheduler.ProcessSource` | services/knowledge-ingestion-service/crawl_all.py:3390-3413 | A tick is skipped or crawls exactly as specified |
| `LinkCrawl.Frontier` | services/knowledge-ingestion-service/crawl_all.py:3095-3107 | Whatever is reachable by n links has been visited at that depth, or something at depth at most n still waits |
| `LinkCrawl.HeadIsNearest` | services/knowledge-ingestion-service/crawl_all.py:3096-3099 | The depth of an unvisited head of the queue is its distance from the seed |
| `LinkCrawl.SkipKeepsOk` | services/knowledge-ingestion-service/crawl_all.py:3097-3098 | Skipping a visited page keeps the invariant of the search |
| `LinkCrawl.FetchKeepsOk` | services/knowledge-ingestion-service/crawl_all.py:3099-3107 | Fetching a page and queueing its new links keeps the invariant of the search |
| `LinkCrawl.FetchedNearestFirst` | services/knowledge-ingestion-service/crawl_all.py:3095-3107 | No page is fetched twice, and each is at least as far from the seed as those fetched before it |
| `LinkCrawl.LeftIsFarther` | services/knowledge-ingestion-service/crawl_all.py:3095-3107 | A reachable page that is left out is at least as far from the seed as every visited one |
| `LinkCrawl.SearchResult` | services/knowledge-ingestion-service/crawl_all.py:3095-3109 | Visited pages are reachable, no reachable page left out is nearer than a visited one, and with an empty queue none is left out |
| `LinkCrawl.VisitedIsLinked` | services/knowledge-ingestion-service/crawl_all.py:3104-3107 | Every visited page but the seed is a link of a visited page |
| `LinkCrawl.SearchStaysOnHost` | services/knowledge-ingestion-service/crawl_all.py:3104-3107 | Every visited page but the seed has the host of the seed and is a link of a visited page; with an empty queue every link of a visited page with that host is visited |
| `LinkCrawl.CollectLinks` | services/knowledge-ingestion-service/crawl_all.py:3104-3107 | Exactly the unvisited links with the host of the seed are appended, in order |
| `LinkCrawl.VisitNext` | services/knowledge-ingestion-service/crawl_all.py:3096-3107 | One round of the loop keeps the search invariant and either visits one more page or shortens the queue |
| `LinkCrawl.CrawlLinks` | services/knowledge-ingestion-service/crawl_all.py:3091-3109 | Terminates with at most `max_pages` pages, each fetched once, none before or instead of a nearer one; all but the seed have its host and are links of visited pages, and unless it stops at exactly `max_pages` every such link of a visited page is visited |
| `Semaphores.SourceDisciplined` | services/knowledge-ingestion-service/crawl_all.py:3456-3458 | A source takes its permit first, takes and releases the inner ones one by one, waits for pages holding nothing else, and releases its own last |
| `Semaphores.PageDisciplined` | services/knowledge-ingestion-service/crawl_all.py:3129-3168 | Likewise a page, with or without a page permit |
| `Semaphores.ProgramsMean` | services/knowledge-ingestion-service/crawl_all.py:3127-3170 | A page of a sitemap does everything under its page permit; a source does everything under its own, and starts its pages last |
| `Semaphores.DoKeepsInv` | services/knowledge-ingestion-service/crawl_all.py:3127-3170 | Every step of every task, early exits and exceptions included, keeps the system invariant |
| `Semaphores.PermitsConserved` | services/knowledge-ingestion-service/crawl_all.py:3453-3460 | In every interleaving free permits plus held permits of each semaphore equal its capacity: 12 for sources, 10 for the pages of a source (line 3127), 3 per host (3001), 30 for classifications (2611), 8 for writes (2853) |
| `Semaphores.HolderIsCloser` | services/knowledge-ingestion-service/crawl_all.py:3129-3131 | Whoever holds a permit another task waits for waits, if at all, for something deeper |
| `Semaphores.FollowWaits` | services/knowledge-ingestion-service/crawl_all.py:3127-3130 | Following the waits from any unfinished task ends at one that can step |
| `Semaphores.NoDeadlock` | services/knowledge-ingestion-service/crawl_all.py:3453-3460 | In every reachable state with an unfinished task some task can take its next step |
| `Semaphores.UnwindIsShortest` | services/knowledge-ingestion-service/crawl_all.py:3006-3007 | What is left of a task is never shorter than releasing what it holds |
| `Semaphores.RunsAreBounded` | services/knowledge-ingestion-service/crawl_all.py:3453-3460 | No run is longer than the work its tasks start with |
| `Semaphores.StuckMeansDone` | services/knowledge-ingestion-service/crawl_all.py:3453-3460 | A run that cannot go on has finished all started tasks and has every permit back |
| `Semaphores.TwelveSourcesAtMost` | services/knowledge-ingestion-service/crawl_all.py:3453-3458 | In every reachable state at most twelve sources have running pages and no page that raised |
| `Semaphores.PagesOutliveTheirSource` | services/knowledge-ingestion-service/crawl_all.py:3170 | Once a page raises, two steps of its source raise in it and give its permit back while its other pages run on |
| `Semaphores.PageRaisesInGather` | services/knowledge-ingestion-service/crawl_all.py:3170 | Such a state is reachable |
| `ToolLoop.EveryCallIsAnswered` | services/defi-query-service/orchestrator.py:1263-1278 | In the conversation of any rounds the n-th request is the n-th call, and the n-th answer has its id and what its tool returned for its arguments, or a refusal iff an earlier call named the same tool |
| `ToolLoop.CallsAreAskedFirst` | services/defi-query-service/orchestrator.py:1254-1278 | No call is answered before it is asked |
| `ToolLoop.RunMeans` | services/defi-query-service/orchestrator.py:1216-1264 | A run takes the calls of one reply after the other while all of them parse, for at most 20 rounds; it is exhausted iff it has 20, and else the next reply, or its absence, says how it ends |
| `Basics.DedupFacts` | services/defi-query-service/orchestrator.py:1268-1271 | Deduplication keeps every name once, ordered by first request |
| `ToolLoop.DispatchedIsDedup` | services/defi-query-service/orchestrator.py:1265-1272 | For any requests the dispatched tools are exactly their order-preserving deduplication |
| `ToolLoop.BudgetStep` | services/defi-query-service/orchestrator.py:1265-1271 | The count reaches the limit of two exactly at a repeated request, and the counts stay those of the requests |
| `ToolLoop.CallModel` | services/defi-query-service/orchestrator.py:1218-1242 | Returns what the first attempt that did not fail returned, having made exactly the attempts up to it, and failure only after three |
| `ToolLoop.AttemptMeans` | services/defi-query-service/orchestrator.py:1218-1242 | A model call comes to the first of its three attempts that does not fail, and to nothing iff all three do |
| `ToolLoop.HandleCall` | services/defi-query-service/orchestrator.py:1264-1272 | A call yields what its tool returns for its arguments iff its tool was not requested before, and a refusal otherwise; the budget stays that of the requests |
| `ToolLoop.AnswerCalls` | services/defi-query-service/orchestrator.py:1263-1278 | All calls of a round are answered in order; it raises iff some arguments do not parse |
| `ToolLoop.Conclude` | services/defi-query-service/orchestrator.py:1216-1278 | Every way out of the loop returns what the specification says, with at most 60 model calls |
| `ToolLoop.FinishedRun` | services/defi-query-service/orchestrator.py:1205-1278 | Whenever a loop returns, the n-th answer in its log belongs to the n-th call: it is what the tool of that name returned for the arguments, or a refusal iff an earlier call has its name; no call is answered before it is asked; `tools_called` names exactly the requested tools, each once, by first request |
| `Providers.StartChat` | services/defi-query-service/orchestrator.py:1210-1214 | The log starts with the system prompt, the context and the question |
| `Providers.ChatRunPlays` | services/defi-query-service/orchestrator.py:1216-1264 | Every round of a run holds the tool calls of the first successful attempt; it ends with the content of the first answer without calls, or an empty text, with the apology iff three attempts fail, and raises iff a call does not parse |
| `Providers.ChatTurn` | services/defi-query-service/orchestrator.py:1254-1278 | A round adds the assistant's calls, then their answers, to the conversation |
| `Providers.ChatIteration` | services/defi-query-service/orchestrator.py:1217-1278 | One iteration either ends as specified or moves the run one round on |
| `Providers.QueryOpenRouter` | services/defi-query-service/orchestrator.py:1194-1278 | The chat loop refines the specification, returns what `ChatRunPlays` reads off the answers of the model, keeps its prompts, and makes at most 60 model calls |
| `Providers.AppendOutput` | services/defi-query-service/orchestrator.py:1352-1353 | All output items are appended, and the calls among them are what the conversation gains |
| `Providers.StartInput` | services/defi-query-service/orchestrator.py:1300-1304 | The log starts with the system prompt, the context and the question |
| `Providers.ResponseRunPlays` | services/defi-query-service/orchestrator.py:1305-1357 | Likewise over the function calls among the output items; the final text is the output text or, if that is empty, the text of the messages |
| `Providers.OutputMeans` | services/defi-query-service/orchestrator.py:1336-1346 | A function call adds itself to the calls of an output, a message its parts to the text, and nothing else adds anything |
| `Providers.InputTurn` | services/defi-query-service/orchestrator.py:1352-1369 | A round adds the whole output, then the function outputs, to the conversation |
| `Providers.InputIteration` | services/defi-query-service/orchestrator.py:1307-1369 | One iteration either ends as specified or moves the run one round on |
| `Providers.QueryOpenAi` | services/defi-query-service/orchestrator.py:1283-1369 | The responses loop refines the same specification, returns what `ResponseRunPlays` reads off the answers of the model, keeps its prompts, and makes at most 60 model calls |
| `Providers.SameRun` | services/defi-query-service/orchestrator.py:1374-1378 | Models that request the same give the same run |
| `Providers.LoopsAgree` | services/defi-query-service/orchestrator.py:1374-1378 | For models that request the same, both loops return the same and their logs hold the same conversation |
| `ResponseCap.ListSizesGrow` | services/defi-query-service/tools.py:70-76 | The serialised size of prefixes grows with their length |
| `ResponseCap.DumpMeans` | services/defi-query-service/tools.py:67 | The text of a list or dictionary is its bracketed entries joined by a comma and a space, a member being its key, a colon, a space and its value |
| `ResponseCap.OversizedList` | services/defi-query-service/tools.py:69-77 | On an oversized list the result is the longest prefix that fits, or else the first element alone, and nothing else |
| `ResponseCap.MembersCapped` | services/defi-query-service/tools.py:80-84 | On an oversized dictionary whose capped members fit, the result has all keys in order, each with its capped value |
| `ResponseCap.OversizedDict` | services/defi-query-service/tools.py:86-94 | On one whose capped members do not fit, the result is the longest prefix of the original members that fits, or else the first alone, and nothing else |
| `ResponseCap.CapFitsIff` | services/defi-query-service/tools.py:65-95 | The result is within the limit iff the value, its first element or member alone, or its capped members are |
| `ResponseCap.OversizedResultIsSmall` | services/defi-query-service/tools.py:77-95 | A result over the limit is a scalar or has at most one element or member |
| `ResponseCap.HugeElementSurvives` | services/defi-query-service/tools.py:77 | A single element that is too long comes back whole |
| `ResponseCap.CapPrunes` | services/defi-query-service/tools.py:65-95 | The result is the value with list tails and member tails cut off, here or inside dictionary members |
| `ResponseCap.PathsMean` | services/defi-query-service/tools.py:65-95 | What a path leads to: step by step, an index to its element and a key to its first member |
| `ResponseCap.CapNeverGrows` | services/defi-query-service/tools.py:65-95 | The serialised size never grows |
| `ResponseCap.CapKeepsLeaves` | services/defi-query-service/tools.py:65-95 | Every leaf of the result is the leaf at the same path of the input |
| `ResponseCap.CapListTwice` | services/defi-query-service/tools.py:69-77 | On lists capping is idempotent |
| `ResponseCap.CapTwiceIff` | services/defi-query-service/tools.py:78-94 | Capping is idempotent except exactly when a dictionary falls back to its first member, which is too long but fits once capped inside |
| `ResponseCap.CapFixedAfterTwo` | services/defi-query-service/tools.py:65-95 | Two applications always reach a fixed point |
| `ResponseCap.TwiceIsNotOnce` | services/defi-query-service/tools.py:78-94 | A family of dictionaries on which the second application still changes something |
| `ResponseCap.LongestPrefix` | services/defi-query-service/tools.py:70-76 | The binary search finds the largest fitting prefix of a growing size |
| `ResponseCap.Truncate` | services/defi-query-service/tools.py:65-95 | The recursive procedure with its searches computes the specified result |
| `Votes.TallyConserves` | services/defi-query-service/tools.py:884-895 | Voter counts add up to the number of records, weights to the sum of the parsed amounts |
| `Votes.ValidatorsFacts` | services/defi-query-service/tools.py:892-893 | The tally has every validator of the records, and no other, once, in the order of their first records |
| `Votes.RecordCounts` | services/defi-query-service/tools.py:884-895 | A record adds one vote to its validator, and its amount to the weight, or nothing if that does not parse |
| `Votes.SliceMeans` | services/defi-query-service/tools.py:896 | The top list is a prefix of the ranking: n entries or all, and for a negative n all but the last -n |
| `Votes.RankingFacts` | services/defi-query-service/tools.py:896 | The ranking is a permutation of the tally, heaviest first, ties in order of first appearance, and conserves votes and weights |
| `Votes.TopIsHeaviest` | services/defi-query-service/tools.py:896 | No validator omitted from the top list outweighs a listed one, and listed weights are exact |
| `Votes.TopValidators` | services/defi-query-service/tools.py:884-896 | The loop, sort and slice return the specified top list and the number of validators |
| `Handles.CallAlone` | services/oprai-tg-bot/app/db.py:57-74 | From any table, an undisturbed call is not refused and leaves its account the only holder; every other row that carries the handle in whatever case loses it, every other row and all linked accounts stay |
| `Handles.LowerSameIff` | services/oprai-tg-bot/sql/schema.sql:268-275 | Two handles count as one iff they are as long and agree at each position, or differ there by the case of an ASCII letter |
| `Handles.FirstMoveReleases` | services/oprai-tg-bot/app/db.py:57-64 | In any state, the first statement of a call with a handle clears exactly the other rows that carry it |
| `Handles.LastMoveClaims` | services/oprai-tg-bot/app/db.py:64-74 | The second, the only one without a handle, raises iff another row carries it, and else sets the handle of the account and keeps its link |
| `Handles.HandleStaysUnique` | services/oprai-tg-bot/sql/schema.sql:268-275 | In every interleaving of any calls, a handle that is held at most once stays so |
| `Handles.RunsStayUnique` | services/oprai-tg-bot/sql/schema.sql:268-275 | From a table that satisfies the unique index, every state that any run of any calls reaches satisfies it |
| `Handles.UndisturbedCallSucceeds` | services/oprai-tg-bot/app/db.py:57-74 | A call between whose statements no other account is given the handle does not raise, and its account becomes the only holder |
| `Handles.HoldsIff` | services/oprai-tg-bot/app/db.py:57-74 | From any move of any run on: an account ends up with a handle iff an accepted claim gave it since and no later statement took it away, or had it then and none took it away |
| `Handles.CallRaisesIff` | services/oprai-tg-bot/app/db.py:57-74 | In any run of any calls, from any table: a call raises, and changes nothing, iff some other account was given the handle after this call released it and kept it since; otherwise its account becomes the only holder |
| `Handles.CompetingCallEnds` | services/oprai-tg-bot/app/db.py:57-74 | If any number of accounts compete for one handle, in any interleaving and from any table, a call ends well iff the statement right before its claim is a release, and raises otherwise |
| `Handles.CompleteRunHasOneWinner` | services/oprai-tg-bot/app/db.py:57-74 | When all of them have run, exactly one account holds the handle, the one whose claim follows the last release; all later claims raised |
| `Handles.OverlapRaises` | services/oprai-tg-bot/app/db.py:57-74 | For two accounts: in the two serial interleavings both calls end well and the later account holds the handle; in the four others the first to claim holds it and the other call raises |
| `Handles.Users.UpsertTgUser` | services/oprai-tg-bot/app/db.py:42-74 | Afterwards the account has the handle, every other row that carried it in whatever case has none, every other row is as before, and links stay; undisturbed it can raise only for an empty handle, and then changes nothing |

## Left out

- HTTP, Qdrant, OpenAI, Anthropic and Postgres calls themselves, and the wrappers around them: their results are parameters.
- HTML, sitemap, RSS and regular-expression processing: their results are given sequences.
- The payload fields title, url, tags, protocol, category, language, license, dates, token count and the sparse vector: copied or computed without effect on the rest.
- `slug`, which can give two URLs one document id: the store properties are stated per document id.
- The adapters for RSS, GitHub and DefiLlama: they go through `UpsertChunks` one page at a time, and appear in `Semaphores` as sources without pages.
- `_select_tools`, `_strip_html` and the tool schemas: which tools are offered does not affect the loop, which takes any requests.
- The API key that `_query_openai` demands before it starts.
- Waiting times between attempts, statistics and logging.
- Rounding of floating-point amounts.
- Votes.TopValidators: an amount that `float` reads as infinity or as not a number is outside the model.
- The guard against two ingestion jobs at once in the service's `main.py`: awaits separate its condition from its registration.
- VectorStore.Collection.WriteBatch: an attempt reaches the store with its whole batch or not at all; `WriteAttempts` allows any number of points.
- PointStore.RecognisedIff: completed upserts only; `WriteAttempts.RecognisedAfterAttemptsIff` states it for failing ones as well.
- PointStore.PartialWriteSticks: says what becomes of the page; exactly when a failed write is retried is `WriteAttempts.RetriedIff`.
- WriteAttempts.HeldIff: attempts of one document within the same millisecond are not told apart.
- WriteAttempts.RecognisedAreHeldIff: under the same condition on timestamps.
- VectorStore.Collection.UpsertChunks: one embedding function stands for the model, so two answers for one text agree.
- PageVisit.ProcessPage: the classifier's answer is given, and a page of a source that skips classification is one that is kept with the anchor "Overview".
- Scheduler.NeverCrawledEarly: no point is taken to be replaced by an older one or by one of another source; `slug`, or one URL listed twice, could cause that.
- Semaphores.NoDeadlock: the fetches, classifications and writes of a run are arbitrary but laid down at its start; that waiting tasks are served in order is not used.
- Semaphores.TwelveSourcesAtMost: sources of which a page raised are not counted; they may go on without their permit, as `PagesOutliveTheirSource` shows.
- Handles.Users.UpsertTgUser: an interrupted call is that of the runs; `last_seen_at`, `created_at` and the returned record are not modelled.
- Providers.LoopsAgree: the wording of the refusal of a repeated tool differs between the two loops and is one value here.
