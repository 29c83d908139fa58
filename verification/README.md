# Models of the repository's gate scripts

The repository guards its pull requests with scripts that read diffs, source files, comments and API
output. This project models the ones with real algorithms in Dafny and proves what they promise, or
the exact condition under which they keep the promise. `dafny verify dfyconfig.toml` checks it all.

Text is `seq<char>`. Regular expressions are recognisers written out by hand. A Python syntax tree is
a rose tree whose nodes carry the node types that some script tests for, and a node is the address
that leads to it, so equal subtrees stay distinct. Loops and updated state of the scripts are methods,
arrays and classes; each is proved against a specification, and the laws are lemmas about that
specification.

| modules | what they model |
|---|---|
| `Wrappers`, `Text`, `Whitespace` | results, string operations, white-space normalisation |
| `DiffParser`, `DiffRoundTrip`, `DiffLaws`, `DiffText`, `DiffContext` | the unified-diff reader against a printer for the format of POSIX.1-2017 XCU `diff`, "Diff -u or -U Output Format" |
| `Stripper`, `StripLexer`, `StripGlue` | the comment and docstring stripper, the lexer that it approximates, and the words that it makes |
| `Redactor`, `SourceLines`, `Drift` | in-place blanking of spans, surviving names, the document drift check from diff text to findings |
| `Syntax`, `PathExpr`, `PathTargets`, `PathSpelling`, `PathMoves` | syntax trees and `ast.walk`, path expressions, what they denote, and which references survive a move |
| `Markers`, `MarkerLaws`, `MarkerShapes`, `BlockingGate`, `BlockingBoxes`, `BlockingRuns`, `NoteGates`, `NoteShapes` | review markers, the three review gates as they are computed and as they are spelled, and their runs |
| `ClosingText`, `ClosingLaws`, `ClosingIntent` | the closing-intent detector: two readings of a text, its patterns as shapes, and five checks |
| `SettleFixpoint`, `SettleGate`, `SettleGrowth` | flow of event lists, least fixpoint, racing reads, and what a new yield point changes |
| `SilentExcept` | the traversal with a function stack |
| `PagedReader`, `JsonText`, `PagedMerge`, `RequiredContexts` | back-to-back pages, completeness, and blocked contexts |
| `ManagedProc` | the table of managed server processes under signals |

Where the code and its own documentation disagree, the model follows the code:

- The diff reader takes any line that starts with `---` or `+++` for a file header, also inside a hunk,
  and does not advance its counters there (scripts/check_doc_drift.py:256). Later numbers of that hunk
  are then too small. `DiffReadsBack` gives the exact condition.
- A header whose new path contains ` b/` is cut at the last such place, a header with quoted paths is not
  read at all, and `splitlines` also breaks lines at form feed, carriage return and other characters
  (scripts/check_doc_drift.py:247-254). `DiffTextReadsBack` gives the exact condition for breaks in edited
  lines, context lines and headings. The redactor cuts its lines the same way, while the parser counts line
  feeds only (`NumberingsAgree`).
- The precise extractor documents a fallback for content that does not tokenize
  (scripts/check_doc_drift.py:429-432), but only the pre-image is asked (446); `UnreadPostImage` says what an
  unreadable post-image reports wrongly.
- A name survives as "a NAME token OR a string literal" (scripts/check_doc_drift.py:578-591), but the code
  looks for a substring (618), so parts of longer names count (`FragmentIff`).
- A shape `Class.method` is said to be salient (scripts/check_doc_drift.py:43-49), but the identifier pattern
  never yields a dot (181), so that test never decides (`LosesIff`).
- Of the seven words that are not to be taken for a sha (scripts/check_tests_read_names_its_tree.py:152-154) four
  can never be: they have six letters, or a `t` (`FriendIff`).
- The stripper rejoins what stood before and after a docstring on one line. That can create a triple
  quote or an identifier that the source does not have (scripts/check_doc_drift.py:355). Texts with and
  without a seam can coincide by chance, so the equivalence with the lexer is stated on offsets.
  `InventedIffMade` and `MaskedIffMade` say exactly which names that invents and hides.
- "Only maximal chains are returned" (scripts/_file_depth_predicate.py:130): the base of `.parents[n]`
  is returned too, because the `.parents` attribute between them does not resolve, and nothing else of a
  spine is (`ReportedBelowIff`). Arguments of `x.resolve(...)` are suppressed although they are off the spine. The attribute
  `.absolute` is a step of a chain but the call `.absolute()` is none (`UnseenIffAbsoluteCall`).
- `/ ".."` is said to resolve correctly by construction (scripts/_file_depth_predicate.py:40-43), but it
  stays a part of the path, and `.parent` takes it away again. `ResolvesRightlyIff` gives the exact condition.
- The move gate promises to find references that do not travel with a file, and judges the path that it
  computes for the final target only (scripts/check_file_depth_reference.py:203-247). So it passes references
  that climb out of the home by `.parent` and come back, that leave it by `..`, or that name a fixed place
  inside it; `PassedAndBrokenIff` says exactly which, and `SafeIsPassed` that it raises no false alarm.
- The identifying line is documented as the first non-empty line after the marker
  (scripts/check_open_blocking_checkboxes.py:46-48), but the code skips the first physical line.
- The merge documents a proof of completeness (scripts/detect_5265_startup_failure_blocked_prs.py:156-164);
  there is none for an empty list of pages or for pages without a total, and repeated pages are counted
  like new ones (`AcceptedIffNoPageTwice` gives the exact condition).
- The settle gate speaks of a yield point "in the SAME function" and of names derived one level
  (scripts/check_collect_events_settle.py:385-388). The walk also enters nested functions, whose yield
  points count for the outer one (`MissedIffNestedYield` says exactly which reads that hides), and names
  are derived through any number of assignments.
- The managed process module promises teardown on every catchable signal (scripts/_reyn_web_proc.py:11-19);
  a signal between `Popen` and `append`, or a termination or hangup signal whose handler could not be
  installed, leaves an orphan. An interrupt without a handler still runs the `atexit` hook.

## Model

| member | source | states |
|---|---|---|
| `DiffParser.IterFileDiffs` | scripts/check_doc_drift.py:224-278 | The one-pass reader with its two counters and four buffers yields the left fold of the line step from the empty state, flushed at the end. |
| `DiffText.LinesArePieces` | scripts/check_doc_drift.py:247 | `str.splitlines`: the lines and the breaks between them, CR LF being one, are the text, and only the last line may lack its break. |
| `DiffLaws.HunkIff` | scripts/check_doc_drift.py:221 | A line gives two start numbers if and only if it is spelled as two ranges, each a numeral with or without a count behind a comma, between their marks. |
| `DiffRoundTrip.HunkRoundTrip` | scripts/check_doc_drift.py:221 | The `@@` line that `diff` prints for a hunk, with and without counts, is read back as the two start numbers. |
| `DiffRoundTrip.BodyRun` | scripts/check_doc_drift.py:256-276 | Reading a printed hunk body from any reader state appends exactly the visible removed and added lines, each numbered by its counter, and advances each counter by its visible lines. |
| `DiffRoundTrip.DiffRun` | scripts/check_doc_drift.py:247-278 | From any reader state, a whole printed diff flushes that state and adds one report per file, so files do not leak into each other. |
| `DiffLaws.PathReadsBack` | scripts/check_doc_drift.py:254-255 | The greedy header pattern reads back the new path if and only if that path has no ` b/` with something behind it. |
| `DiffLaws.DiffReadsBack` | scripts/check_doc_drift.py:224-278 | Round trip: for every list of edits printed as headers plus ordered hunks, the reader returns the true removed and added lines with their true numbers if and only if no removed text starts with `--`, no added text with `++`, and no path is cut again. |
| `DiffLaws.HiddenLineShiftsNumbers` | scripts/check_doc_drift.py:256-257 | Why the condition is needed: removing a line that starts with `--` drops it from the report and gives the removed line after it the wrong number. |
| `DiffContext.TextIsPieces` | scripts/check_doc_drift.py:247 | The text of printed lines is split line by line: the reader sees the pieces of each printed line in order. |
| `DiffContext.OnePieceIffWhole` | scripts/check_doc_drift.py:247 | A printed line is one piece if and only if it holds no break, or none but a carriage return at its end. |
| `DiffContext.DiffTextReadsBack` | scripts/check_doc_drift.py:247-278 | The same round trip from the text of the diff: when old paths hold no break and what breaks leave behind in meta lines is inert, in headings and context lines plain, the text is read back if and only if no edited line and no new path holds a break, no edit is hidden, no path is cut again, and no edit stands behind a heading or context line of its hunk that is more than one piece. |
| `DiffContext.FormFeedIsMisread` | scripts/check_doc_drift.py:273-276 | Why the condition is needed: a form feed in a context line gives the removed line behind it a wrong number. |
| `DiffText.EditsMustBeUnbroken` | scripts/check_doc_drift.py:247-278 | Whatever the rest looks like: an edited line or new path with a break, such as a form feed, is never read back, because no report holds a break. |
| `DiffContext.BrokenContextShifts` | scripts/check_doc_drift.py:273-276 | Each piece of a broken line that the reader takes for context advances both counters and nothing else. |
| `DiffText.QuotedHeaderLosesFile` | scripts/check_doc_drift.py:248-255 | A header with quoted paths has no path, and the whole file is missing from the report. |
| `DiffLaws.LinesOfText` | scripts/check_doc_drift.py:247 | Terminated lines are split back into themselves if and only if no line holds any of the break characters of `splitlines`, form feed among them. |
| `DiffParser.BreaksAre` | scripts/check_doc_drift.py:247 | The ten characters at which `splitlines` breaks. |
| `DiffLaws.NumbersAreReal` | scripts/check_doc_drift.py:266-276 | In every edit script the reported numbers of a side increase strictly and each is the place of its line in that side's image. |
| `DiffLaws.TruthIsReal` | scripts/check_doc_drift.py:208-218 | `removed_lines[i] == pre[removed_line_nos[i] - 1]` and `added_lines[i] == post[added_line_nos[i] - 1]`, both number lists strictly increasing. |
| `DiffLaws.ReplayRebuildsPost` | scripts/check_doc_drift.py:224-278 | Deleting the reported removed lines from the pre-image and weaving in the reported added lines rebuilds the post-image. |
| `Stripper.StripRest` | scripts/check_doc_drift.py:332-355 | The find-earliest-marker, excise, rejoin and rescan loop ends with the text and the open quote of its specification. |
| `Stripper.ExcisionShortens` | scripts/check_doc_drift.py:352-355 | Why it ends: each excision shortens the line by at least six characters. |
| `Stripper.StripCommentsAndDocstrings` | scripts/check_doc_drift.py:291-357 | The line loop with docstring state carried across lines: one output line per input line, each equal to the specified piece. |
| `Stripper.OutputMarkerFree` | scripts/check_doc_drift.py:323-357 | No output line contains `#` or a triple quote, from any carried docstring state. |
| `Stripper.StripIsIdempotent` | scripts/check_doc_drift.py:323-357 | Stripping stripped lines changes nothing, with no side condition. |
| `StripLexer.OutputIsSubsequence` | scripts/check_doc_drift.py:323-357 | Each output line is a subsequence of its source line, witnessed by strictly increasing offsets. |
| `StripLexer.SeamExact` | scripts/check_doc_drift.py:333-355 | On one line the loop keeps the offsets that a left-to-right lexer (code, comment, open triple quote) keeps, and opens the same docstring, if and only if no rejoin creates a triple quote across the seam. |
| `StripLexer.SeamExactLines` | scripts/check_doc_drift.py:320-357 | The same equivalence for whole files with the docstring state carried from line to line. |
| `StripLexer.StripIsLexing` | scripts/check_doc_drift.py:320-357 | Hence on files without a seam the stripped text is the text that the lexer leaves. |
| `StripLexer.SeamWitness` | scripts/check_doc_drift.py:355 | Why the condition is needed: on a line where quotes stand around a docstring, the loop opens a docstring that the lexer does not. |
| `Redactor.BlankSpan` | scripts/check_doc_drift.py:501-522 | In place on the array of lines, one valid span, of one line or many, blanks exactly the characters that it covers. |
| `Redactor.RedactAll` | scripts/check_doc_drift.py:547-574 | The two blanking loops, docstrings then comments, leave the text in which a character is blank exactly when some span covers it. |
| `Redactor.RedactedTwice` | scripts/check_doc_drift.py:547-574 | Blanking with one list of spans and then another is blanking with both, overlapping or not. |
| `Redactor.OrderFree` | scripts/check_doc_drift.py:547-574 | Any permutation or repetition of the spans gives the same text. |
| `Redactor.Pointwise` | scripts/check_doc_drift.py:501-522 | Redaction keeps the line count, every line length and every line end; a character becomes a space if and only if some span covers it. |
| `Redactor.FoundIffLive` | scripts/check_doc_drift.py:618 | A name without spaces is found in the redacted text if and only if the source has an occurrence that touches no comment and no docstring span. |
| `Redactor.FragmentIff` | scripts/check_doc_drift.py:578-618 | A name is found without standing anywhere as a live word, so as no NAME token, if and only if it has live occurrences and each is part of a longer word. |
| `Redactor.FragmentSurvives` | scripts/check_doc_drift.py:618 | The smallest such case: `ab_cd` is found in `ab_cd_ef`. |
| `Redactor.SurvivesInSrc` | scripts/check_doc_drift.py:577-620 | A name survives if and only if some file that the text search names is not Python, unreadable or unparsable, or shows an occurrence outside comments and docstrings. |
| `Drift.FoundAreMentioned` | scripts/check_doc_drift.py:181 | The identifier scan returns exactly the identifier-shaped texts that stand in the line as whole words. |
| `Drift.RemovedIdentifiersInFile` | scripts/check_doc_drift.py:360-372 | Exactly the salient names that some removed line mentions and no added line mentions, after stripping for `.py` files. |
| `Drift.NameIff` | scripts/check_doc_drift.py:181 | A name is ASCII letters, digits and underscores, no digit in front. |
| `Drift.LosesIff` | scripts/check_doc_drift.py:181-192 | Which names a file loses: ASCII names with an underscore or of at least eight characters; the test for a dot never decides, because the identifier pattern yields none. |
| `Drift.FindRemovedIdentifiers` | scripts/check_doc_drift.py:375-389 | The union of these over the files of the diff below the prefix. |
| `Drift.RemovedPrecisely` | scripts/check_doc_drift.py:456-465 | The tokenizer path for one file: exactly the salient names with a token on a removed line of the pre-image and none on an added line of the post-image. |
| `Drift.FindRemovedPrecisely` | scripts/check_doc_drift.py:415-466 | Over the Python files of the diff below the prefix, the tokenizer decides where both images are known and the first one tokenizes, else the line heuristic. |
| `Drift.WayIff` | scripts/check_doc_drift.py:434-455 | A file goes by its tokens when its first image has some or is blank, else by its lines. |
| `Drift.UnreadPostImage` | scripts/check_doc_drift.py:446-465 | A post-image that does not tokenize causes no fallback: every salient name with a token on a removed line is reported, wrongly if and only if an added line holds it too. |
| `Drift.PreciseMeansDeleted` | scripts/check_doc_drift.py:456-465 | For a printed diff that is read back faithfully, these are exactly the names with a token on a line that the edit really deletes and none on a line that it really inserts. |
| `Drift.CheckDocDriftPure` | scripts/check_doc_drift.py:652-679 | A finding exists exactly for a gone name and a document that names it and that the diff does not touch, and the findings are ordered by name, then by document. |
| `Drift.GoneIdentifiers` | scripts/check_doc_drift.py:682-692 | Exactly the removed names that have no live occurrence left under `src/`. |
| `Drift.CheckDocDrift` | scripts/check_doc_drift.py:721-746 | From diff text to findings, with the images of a pull request or without: a document is reported for a name if and only if a file under `src/` loses the name, no code shows it any more, the document names it, and no file of the diff is that document. |
| `StripGlue.KeptFromIsBordered` | scripts/check_doc_drift.py:323-357 | Next to every kept character of a line stands another kept character, a `#` or quote, or the end of the line: every cut is bordered by marker characters. |
| `StripGlue.ContiguousIsMentioned` | scripts/check_doc_drift.py:323-357 | A whole word of the stripped line whose characters stand side by side in the source is a whole word of the source. |
| `StripGlue.GluedWordIffGlue` | scripts/check_doc_drift.py:355 | The stripped line holds a word that is not contiguous in the source if and only if some cut has word characters on both sides. |
| `StripGlue.MakesWordIffGlue` | scripts/check_doc_drift.py:320-357 | The same for whole files. |
| `StripGlue.StrippedWordsAreSourceWords` | scripts/check_doc_drift.py:320-357 | Every word of a stripped file stands in the file, or a cut with word characters on both sides has made it. |
| `Drift.InventedIffMade` | scripts/check_doc_drift.py:360-372 | A salient name that no removed line holds is reported if and only if a cut in the removed lines makes it and the stripped added lines do not mention it. |
| `Drift.MaskedIffMade` | scripts/check_doc_drift.py:360-372 | A removed salient name that no added line holds goes unreported if and only if a cut in the added lines makes it. |
| `Drift.GlueFreeDiffsAreRight` | scripts/check_doc_drift.py:360-372 | So when no cut of the removed and added lines glues two words, every reported name stands in a removed line and every unreported one in an added line. |
| `Drift.GluedNameIsReported` | scripts/check_doc_drift.py:355-372 | The smallest removed line that makes a reported name. |
| `SourceLines.NumberingsAgree` | scripts/check_doc_drift.py:551-570 | The lines that the redactor cuts are the lines that end in a line feed, which `tokenize` counts, and `ast` too in text read with universal line ends, if and only if, before the last character, every break character is a line feed or stands in front of one as a carriage return: a form feed inside shifts all spans behind it. |
| `Syntax.WalkCovers` | scripts/_file_depth_predicate.py:147-151 | `ast.walk` from a node, breadth first over a queue, visits exactly the nodes at or below it. |
| `PathSpelling.OnePart` | scripts/_file_depth_predicate.py:101-102 | A literal without a slash is one part, unless it is empty or a dot. |
| `PathSpelling.PartsJoin` | scripts/_file_depth_predicate.py:101-102 | The parts of two literals with a slash between them are the parts of the one and then of the other. |
| `PathSpelling.PartsOfSpelled` | scripts/_file_depth_predicate.py:101-102 | So parts spelled with slashes between them are read back. |
| `PathSpelling.JoinIs` | scripts/_file_depth_predicate.py:101-102 | A literal goes below the base, one with a leading slash replaces it. |
| `PathSpelling.AttributeResolves` | scripts/_file_depth_predicate.py:66-79 | `.parent` climbs, `.resolve` and `.absolute` stay, every other attribute breaks the chain. |
| `PathSpelling.IndexResolves` | scripts/_file_depth_predicate.py:82-95 | `.parents[n]` climbs n + 1 times for n >= 0 and not at all below, `True` counting as one; no other attribute or index is read. |
| `PathSpelling.JoinResolves` | scripts/_file_depth_predicate.py:97-103 | Only a division by a string literal joins. |
| `PathSpelling.ResolveCallResolves` | scripts/_file_depth_predicate.py:105-112 | The call of `x.resolve` is `x` whatever its arguments. |
| `PathSpelling.CallResolves` | scripts/_file_depth_predicate.py:105-118 | With one argument `Path`, `abspath` and `normpath` are the argument and `dirname` its parent, bare or behind a module; no other call is read. |
| `PathExpr.ResolveIsNorm` | scripts/_file_depth_predicate.py:60-120 | Every resolvable expression is a normal form of climbs and pushes run on the anchor, and whether it resolves does not depend on the anchor. |
| `PathExpr.SpellingIndependence` | scripts/_file_depth_predicate.py:60-120 | Two expressions denote the same path from every anchor if and only if their normal forms are equal. |
| `PathExpr.ThreeClimbsAgree` | scripts/_file_depth_predicate.py:73-95 | `x.parents[n]` for n >= 0, n + 1 times `.parent` and n + 1 nested `dirname` calls resolve alike, whatever `x` is. |
| `PathExpr.AbsoluteCallIsUnseen` | scripts/_file_depth_predicate.py:75-112 | The call `x.resolve()` is `x`, but a chain through the call `x.absolute()` does not resolve at all, however far it climbs. |
| `PathExpr.UnseenIffAbsoluteCall` | scripts/_file_depth_predicate.py:60-120 | For every expression: reading the call `x.absolute()` as `x` would change the result if and only if such a call lies on the way and the rest resolves. |
| `PathMoves.FoldIsCollapse` | scripts/_file_depth_predicate.py:40-43 | Carrying out every `..` of the path that a normal form gives is running its folded form, in which leading `..` are climbs from the anchor. |
| `PathMoves.DenotedIsTrueNorm` | scripts/_file_depth_predicate.py:40-120 | What an expression denotes on disk, where `resolve`, `abspath` and `normpath` carry out `..` at their place in the chain and the file system does at the end, is one normal form run on the anchor. |
| `PathMoves.ResolvesRightlyIff` | scripts/_file_depth_predicate.py:40-43 | The module says that `/ ".."` resolves correctly by construction: the resolver returns the denoted path from every anchor if and only if the two normal forms are equal. |
| `PathSpelling.OtherArityIsUnread` | scripts/_file_depth_predicate.py:113-118 | With any other number of arguments these calls break the chain. |
| `PathSpelling.OthersAreUnread` | scripts/_file_depth_predicate.py:60-120 | No node of another kind is read. |
| `PathTargets.FillParents` | scripts/_file_depth_predicate.py:146-149 | The double loop maps every node but the root to its parent. |
| `PathTargets.ParseFileRelativeTargets` | scripts/_file_depth_predicate.py:142-161 | The loops over the walk return the targets of the reported chains in walk order without repetition. |
| `PathTargets.TargetsAreReported` | scripts/_file_depth_predicate.py:150-161 | The result holds the target of a chain if and only if the chain resolves and its parent does not, each target once. |
| `PathTargets.Covered` | scripts/_file_depth_predicate.py:151-160 | Every resolvable attribute, subscript, division or call has a reported node at or above it, with only resolvable nodes between. |
| `PathTargets.SpineResolves` | scripts/_file_depth_predicate.py:82-95 | By induction along a spine: below a resolvable node everything on its spine resolves except the `.parents` attribute of an index that resolves. |
| `PathTargets.ReportedIffIndexed` | scripts/_file_depth_predicate.py:157-160 | Below a resolvable node a resolvable chain of its spine is reported if and only if it is the base of a resolving index `.parents[n]`. |
| `PathTargets.ReportedBelowIff` | scripts/_file_depth_predicate.py:130-160 | So a reported chain is not maximal on its own spine if and only if it is such a base, although only maximal chains are promised. |
| `PathTargets.ArgumentsAreSuppressed` | scripts/_file_depth_predicate.py:105-118 | Off the spine only arguments of calls resolve, and those of a resolving call, `x.resolve(...)` included, are never reported. |
| `PathMoves.SurvivesIffLow` | scripts/check_file_depth_reference.py:203-222 | For every resolvable expression: the reference denotes what moved along with it, for every move of its home directory, if and only if, all `..` carried out, it goes to no fixed place and climbs no higher than the home. |
| `PathMoves.MoveSafety` | scripts/check_file_depth_reference.py:203-248 | With relative literals free of `..`, that holds if and only if every resolvable sub-expression on its spine denotes a path inside the home. |
| `PathTargets.OwnHome` | scripts/check_file_depth_reference.py:180-200 | The home is the first directory below the tests directory on the way to the file; a file directly in it has none. |
| `PathTargets.ReferencesAFixedTestsLocation` | scripts/check_file_depth_reference.py:223-248 | The loop with early returns flags a file if and only if some reported target is flagged. |
| `PathSpelling.GateIff` | scripts/check_file_depth_reference.py:203-248 | From the tree: a file is flagged if and only if some attribute, subscript, division or call resolves while the node above it does not, to a path that is foreign: outside the bucket, or, for a file right below the tests directory, any but the file and that directory. |
| `PathSpelling.PeerIsFlagged` | scripts/check_file_depth_reference.py:224-247 | `Path(__file__).parent / "_support"` in a file right below the tests directory resolves to the peer and is flagged. |
| `PathSpelling.BucketDecides` | scripts/check_file_depth_reference.py:241-247 | In a bucket a path below the tests directory is flagged if and only if it begins with another directory. |
| `PathTargets.GateIsInside` | scripts/check_file_depth_reference.py:231-247 | For a file in a bucket the three tests of the loop amount to one: a target passes if and only if it lies inside the bucket. |
| `PathMoves.PassedAndBrokenIff` | scripts/check_file_depth_reference.py:224-247 | The gate passes a reference that some move breaks if and only if the path that it computes, `..` kept as a part, lies in the home, but the reference climbs out of the home by `.parent` or `..` or goes to a fixed place. |
| `PathMoves.SafeIsPassed` | scripts/check_file_depth_reference.py:224-247 | No false alarm in a bucket: every reference that survives every move is passed. |
| `PathMoves.GateExactForClimbs` | scripts/check_file_depth_reference.py:224-247 | For expressions whose joins hold no `..` and have all been climbed away again, the gate passes exactly those that survive every move. |
| `PathMoves.ClimbOutAndBack` | scripts/check_file_depth_reference.py:224-247 | The smallest expression that climbs out by `.parent` and comes back: passed by the gate and broken by a move. |
| `PathMoves.DotDotEscapes` | scripts/check_file_depth_reference.py:224-247 | The smallest one that climbs by `..`: `Path(__file__).parent / ".." / "peer"` denotes the peer directory, is passed by the gate and broken by a move. |
| `MarkerShapes.FirstNonBlankIs` | scripts/_markers.py:177-199 | The line that is read is the first one that is not blank, stripped. |
| `MarkerShapes.UndecoratedIs` | scripts/_markers.py:219-234 | Every backtick and asterisk goes, every other character stays in its place. |
| `MarkerShapes.KeywordStartIff` | scripts/_markers.py:131-145 | The keyword stands behind the longest prefix of the form bracketed role, white space, em dash, white space, or at column 0 when there is none. |
| `MarkerShapes.HeadMarkIff` | scripts/_markers.py:246-256 | A marker is read with a sha if and only if the keyword, `(head`, the sha of 7 to 40 hexadecimal digits and `)` stand there with white space at the usual places. |
| `MarkerShapes.RaisesIff` | scripts/check_open_blocking_checkboxes.py:301-389 | So a comment raises or clears for a sha exactly when that marker is spelled at the place of the keyword on its first line. |
| `MarkerShapes.NearMissIff` | scripts/check_open_blocking_checkboxes.py:415-432 | A near miss shows the bare word BLOCKING on its first line, decoration gone, and is read as neither marker. |
| `MarkerShapes.NoteIff` | scripts/_markers.py:259 | A note opens with TESTS-READ or TESTS-READY in any case, with nothing of a word behind it. |
| `MarkerShapes.RereadIff` | scripts/check_blocking_has_reread_note.py:135 | A re-read note opens with RE-READ in any case, a bracket, `head` in any case and white space. |
| `MarkerLaws.UndecoratedIsIdempotent` | scripts/_markers.py:148-174 | Undecorating after the role prefix twice is undecorating once. |
| `MarkerLaws.MarkerNamesItself` | scripts/_markers.py:222-251 | A line read as a marker shows the bare word when all its decoration is gone, so no marker escapes the near-miss scan unseen. |
| `MarkerLaws.Trichotomy` | scripts/check_open_blocking_checkboxes.py:415-432 | A comment whose first line names the word is exactly one of raise, clear and near miss, and only such comments are any of them. |
| `MarkerLaws.RolePrefixStable` | scripts/_markers.py:131-145 | A role prefix is found again, with the white space behind it, whatever text replaces the rest of the line. |
| `Whitespace.NormalizeIsWords` | scripts/check_open_blocking_checkboxes.py:278-282 | Collapsing white space and stripping is splitting into words and joining them by single spaces. |
| `Whitespace.QuotedLine` | scripts/check_open_blocking_checkboxes.py:278-282 | The normal form of a text contains the normal form of each whole line of it. |
| `BlockingGate.ClearedAfter` | scripts/check_open_blocking_checkboxes.py:301-329 | The scan with early exit is true if and only if some candidate clears for a sha that is prefix-compatible with the non-empty head and quotes the non-empty point up to white space. |
| `BlockingGate.Evaluate` | scripts/check_open_blocking_checkboxes.py:332-440 | The exit code is 2 without a body, else 1 exactly when there are findings; the findings are those of the four conditions in their order. |
| `BlockingBoxes.BoxIff` | scripts/check_open_blocking_checkboxes.py:160-164 | A line is read as an open box if and only if it is tabs and spaces, one of `-*+`, and, with tabs and spaces between them, brackets with nothing else inside, pairs of asterisks, the red circle and the text behind it; as a ticked box if and only if exactly one `x` or `X` stands in the brackets instead. |
| `BlockingBoxes.OpenBoxIff` | scripts/check_open_blocking_checkboxes.py:347-350 | The body has an open box if and only if some line of it is spelled so. |
| `BlockingBoxes.TickedBoxIff` | scripts/check_open_blocking_checkboxes.py:297-298 | The checked lines are exactly the normalised texts, not blank, of the lines spelled as ticked boxes. |
| `BlockingBoxes.GreenIff` | scripts/check_open_blocking_checkboxes.py:347-440 | Green if and only if the body shows no open box, every ticked box is cleared by some comment, every raised point by a later one, and no comment is a near miss. |
| `BlockingRuns.RaisedPointHolds` | scripts/check_open_blocking_checkboxes.py:383-397 | Over every run of posts, pushes and body edits: after a BLOCKING comment every later state is red until a comment posted after it clears its point for that state's own head. |
| `BlockingRuns.PushReopens` | scripts/check_open_blocking_checkboxes.py:301-329 | A push to a head that is prefix-compatible with no posted clearing makes the gate red while any point was ever raised. |
| `BlockingRuns.EmptyPointIsPermanent` | scripts/check_open_blocking_checkboxes.py:285-329 | A BLOCKING comment without an identifying line is red in every later state, whatever is posted or pushed. |
| `BlockingRuns.NearMissIsPermanent` | scripts/check_open_blocking_checkboxes.py:415-432 | So is a near miss. |
| `BlockingRuns.DeletionIsPunished` | scripts/check_open_blocking_checkboxes.py:347-440 | With body and head fixed, a deletion that turns red to green deleted a BLOCKING comment or a near miss. |
| `BlockingRuns.DeletingAClearingNeverHelps` | scripts/check_open_blocking_checkboxes.py:347-440 | Deleting a clearing comment never turns red to green. |
| `BlockingRuns.PostKeepsGreen` | scripts/check_open_blocking_checkboxes.py:347-440 | A post turns green to red only by raising a point or by being a near miss. |
| `BlockingRuns.OneCommentRepairs` | scripts/check_open_blocking_checkboxes.py:301-440 | From any history without open checkbox, near miss or empty point, one comment that clears for the current head and quotes all points makes the gate green. |
| `BlockingRuns.IdentifyingLineIs` | scripts/check_open_blocking_checkboxes.py:285-294 | The code skips the first physical line, not the marker line: with a leading blank line the marker itself identifies the point. |
| `NoteGates.TokensAreRuns` | scripts/check_tests_read_names_its_tree.py:148 | The sha scan finds exactly the runs of 7 to 40 hexadecimal digits with no such digit on either side. |
| `NoteGates.FindNoteShas` | scripts/check_tests_read_names_its_tree.py:157-174 | The tokens that are no false friend and prefix-compatible with a commit, in order. |
| `NoteShapes.FriendIff` | scripts/check_tests_read_names_its_tree.py:152-171 | Of the seven listed English words only three can ever be read as a token: the other four have six letters or a `t`. |
| `NoteShapes.NamesHeadIff` | scripts/check_tests_read_names_its_tree.py:157-216 | A note names the head if and only if some whole run of 7 to 40 hexadecimal digits in it, none of the three words, agrees with a commit and with the head, agreeing meaning that one begins with the other. |
| `NoteGates.TestsCommitsAfter` | scripts/check_tests_read_names_its_tree.py:177-194 | The tests-touching commits behind the first commit that the sha names, or all of them when it names none. |
| `NoteGates.EvaluateTestsRead` | scripts/check_tests_read_names_its_tree.py:278-352 | Green if and only if no tests file is touched, or commits and head are non-empty and some comment opens with a note that names the head; each of the five red kinds is returned if and only if its own condition is the first that fails. |
| `NoteGates.EvaluateReread` | scripts/check_blocking_has_reread_note.py:194-271 | Green if and only if no BLOCKING comment exists, or commits and head are non-empty and some comment opens with a re-read note that names the head. |
| `NoteShapes.TestsReadIff` | scripts/check_tests_read_names_its_tree.py:219-352 | Green, from the texts: no file begins with `tests/`, or commits and head are there and some comment's first line opens a note and names the head. |
| `NoteShapes.RereadGateIff` | scripts/check_blocking_has_reread_note.py:138-271 | The same for the re-read gate, where a comment is a block exactly when a BLOCKING marker is spelled on its first line. |
| `NoteGates.PostingKeepsGreen` | scripts/check_tests_read_names_its_tree.py:278-326 | No run of posts undoes a green verdict. |
| `NoteGates.PushNeedsANote` | scripts/check_tests_read_names_its_tree.py:278-326 | After a push, whatever files it touches, whose head matches no posted token, a pull request that then touches tests is red. |
| `NoteGates.FreshNoteRestores` | scripts/check_tests_read_names_its_tree.py:278-326 | One note that names the full head restores green after any history. |
| `NoteGates.RoleNoteRestores` | scripts/check_tests_read_names_its_tree.py:288-299 | The note with a role prefix that the gate's own message asks for is such a note, whatever the role. |
| `NoteGates.PlainNoteRestores` | scripts/check_tests_read_names_its_tree.py:197-216 | So is the bare note. |
| `NoteGates.TestsReadImpliesReread` | scripts/check_blocking_has_reread_note.py:138-154 | For a pull request that touches tests, a green TESTS-READ verdict makes the re-read verdict green. |
| `NoteGates.StrangersNameNothing` | scripts/check_tests_read_names_its_tree.py:330-335 | Corollary: an identifier that is no commit of the pull request, such as a comment number, names no head. |
| `ClosingLaws.AuthorReadingIs` | scripts/check_pr_closing_intent.py:527-542 | The author reading is the text without its backticks. |
| `ClosingLaws.FirstStretchGoes` | scripts/check_pr_closing_intent.py:545-554 | For each kind of fence, what stands between the first mark and the next becomes a space, and reading goes on behind it. |
| `ClosingLaws.GithubReadingIs` | scripts/check_pr_closing_intent.py:545-554 | For GitHub fenced code, in blocks and in spans, is a space, and text without backticks is itself. |
| `ClosingLaws.BlocksGoFirst` | scripts/check_pr_closing_intent.py:545-554 | Blocks are dropped before spans: the smallest text on which the order shows. |
| `ClosingLaws.MatchIff` | scripts/check_pr_closing_intent.py:333-342 | A pattern matches exactly where a keyword, spelled as the pattern spells it and in any case, stands free with white space, at most one colon, `#` and a whole numeral behind it; the canonical one also not behind a hyphen. |
| `ClosingLaws.DiscussingIff` | scripts/check_pr_closing_intent.py:465-468 | A marker is read exactly where the comment opening, its two words and a list of `#` numbers with white space and commas behind each run up to the closing; it yields these numbers. |
| `ClosingText.MatchesAreApart` | scripts/check_pr_closing_intent.py:333-345 | No match of a keyword pattern begins inside another match. |
| `ClosingText.ScanFindsAll` | scripts/check_pr_closing_intent.py:573-576 | Hence a left-to-right scan that resumes behind each match finds every issue that the pattern names anywhere. |
| `ClosingText.FindDiscussing` | scripts/check_pr_closing_intent.py:646-657 | Exactly the issues listed in some discussing marker. |
| `ClosingText.ClauseWindow` | scripts/check_pr_closing_intent.py:420-433 | The backward loop and the reversal return the longest suffix of the words in which no word ends a clause. |
| `ClosingText.WindowIsLongest` | scripts/check_pr_closing_intent.py:420-433 | A suffix is free of clause ends if and only if it is no longer than the window. |
| `ClosingText.FindNegated` | scripts/check_pr_closing_intent.py:660-691 | Exactly the issues of the closing matches, in the reading of GitHub, that are negated in their own window. |
| `ClosingLaws.NegatedIff` | scripts/check_pr_closing_intent.py:420-443 | A reference is negated if and only if some of the last six words before it, none of which ends a clause, hold a negation. |
| `ClosingLaws.ClauseEnds` | scripts/check_pr_closing_intent.py:417 | A word ends a clause if and only if it ends in a comma, semicolon, bracket or full stop, or is a double dash. |
| `ClosingLaws.WordNegates` | scripts/check_pr_closing_intent.py:396-401 | Each of the five English terms negates as a whole word. |
| `ClosingLaws.EndingNegates` | scripts/check_pr_closing_intent.py:397-443 | Each of the three Japanese terms negates wherever it stands. |
| `ClosingLaws.NotableIsNoNegation` | scripts/check_pr_closing_intent.py:398-443 | A longer word that begins with `not` negates nothing. |
| `ClosingText.CutIsConservative` | scripts/check_pr_closing_intent.py:420-443 | A negation seen in the cut window, the two-word `no longer` included, is seen in the uncut window: the cut only removes findings. |
| `ClosingIntent.CheckContradictions` | scripts/check_pr_closing_intent.py:732-1053 | The five checks in order, each over its sorted set difference, with body, commit and title sources. |
| `ClosingIntent.FindingsAre` | scripts/check_pr_closing_intent.py:742-1053 | What each check reports, in terms of the texts alone. Check 1: a closing keyword names the issue in the body as the author wrote it, the references lack it, and no discussing marker of the body holds it. Check 2: the references hold it and a marker of the body does, or a non-closing keyword names it and no canonical one for GitHub. Checks 3 to 5 alike, with commits and title; no other finding exists. |
| `ClosingIntent.FindingsAreOrdered` | scripts/check_pr_closing_intent.py:742-1053 | The findings come by check, then body, commits, title, and within one of these by rising issue number, but for the commits of check 5. |
| `ClosingIntent.SilentIff` | scripts/check_pr_closing_intent.py:742-876 | The exact condition under which an issue passes without any finding, for one that GitHub will close and for one that it will not. |
| `ClosingIntent.NoSilentClose` | scripts/check_pr_closing_intent.py:742-876 | Such an issue is declared in canonical form in the author reading or the GitHub reading, carries no discussing marker, and none of its closing keywords is negated. |
| `ClosingIntent.FindingsAreLocal` | scripts/check_pr_closing_intent.py:742-1053 | The findings of an issue depend on nothing but what the texts say about that issue. |
| `SettleFixpoint.Sweep` | scripts/check_collect_events_settle.py:436-457 | One pass of the assignments adds only names reached from the seeds, reports a change exactly when it made one, and leaves a closed set when it made none. |
| `SettleFixpoint.Propagate` | scripts/check_collect_events_settle.py:433-457 | The `while changed` loop ends with exactly the names reachable from the seeds through assignments, which is the least closed set. |
| `SettleFixpoint.OrderDoesNotMatter` | scripts/check_collect_events_settle.py:433-457 | The fixpoint does not depend on the order or the repetition of the visits. |
| `SettleGate.Gather` | scripts/check_collect_events_settle.py:404-431 | The first pass gathers exactly the seed names, yield lines, emit lines and registration arguments. |
| `SettleGate.IsInsideLambda` | scripts/check_collect_events_settle.py:307-316 | The nested walks answer whether a lambda stands at or above the node. |
| `SettleGate.IsWhilePollCondition` | scripts/check_collect_events_settle.py:319-348 | True if and only if the node stands in the test of a while loop whose body holds a yield point. |
| `SettleGate.YieldPointIff` | scripts/check_collect_events_settle.py:280-304 | A yield point is an awaited call of `settle`, of `drain` on anything, of `asyncio.sleep`, or of one of seven polling helpers by name. |
| `SettleGate.SeedsAre` | scripts/check_collect_events_settle.py:404-431 | The names that a node makes event lists of: the list of a subscribed `x.append`, bare or called by a lambda, and the plain targets of an assignment from `collect_events(...)`. |
| `SettleGate.EmitsAndRegistrations` | scripts/check_collect_events_settle.py:408-425 | An emit is a call of `x.emit`; a registration is the name in a subscribed `x.append`. |
| `SettleGate.BindingMeans` | scripts/check_collect_events_settle.py:438-457 | The second pass reads an assignment as carrying `x` to `y` if and only if its value loads `x` at any depth and one of its targets holds the name `y` at any depth. |
| `SettleGate.EdgesAreFlows` | scripts/check_collect_events_settle.py:433-457 | So the collected assignments have exactly the edges of the flow through the tree. |
| `SettleGate.TaintedIsReachable` | scripts/check_collect_events_settle.py:433-457 | A name is reachable over the collected assignments if and only if an event list flows to it through assignments of the tree. |
| `SettleGate.CheckWithHelpers` | scripts/check_collect_events_settle.py:383-499 | For any list of polling helpers the three passes return the racing reads of the function in walk order, and nothing for a plain `def`. |
| `SettleGate.CheckFunction` | scripts/check_collect_events_settle.py:383-499 | The same for the script's own list of polling helpers. |
| `SettleGate.ReportMeans` | scripts/check_collect_events_settle.py:466-499 | A line and name are reported if and only if some read there is tainted, not in a lambda or a polling condition, not a registration, not before every emit and not after a yield point. |
| `SettleGrowth.NewSettleAddsNoFlag` | scripts/check_collect_events_settle.py:280-304 | Adding yield points never adds a flag: when `await settle()` is written into any blocks of a function as new statements, or in place of inert leaves, and later lines move down in their order, every report of the new function is a report of the old one on the line that has moved there, as long as `settle` is not itself a name that holds an event list. |
| `SettleGrowth.GrownTaint` | scripts/check_collect_events_settle.py:433-457 | The new calls taint no name under the same condition. |
| `SettleGate.MoreYieldsFewerFlags` | scripts/check_collect_events_settle.py:223-231 | Listing more polling helpers never adds a flag either. |
| `SettleGate.SettlingFirstIsEnough` | scripts/check_collect_events_settle.py:463-497 | A yield point above every read of a tainted name silences the gate. |
| `SettleGate.MissedIffNestedYield` | scripts/check_collect_events_settle.py:383-388 | A read that no yield point of the function itself precedes and nothing else excuses is missed if and only if a nested function yields on an earlier line. |
| `SettleGate.NestedSettleIsMissed` | scripts/check_collect_events_settle.py:383-388 | A function with such a missed read: only its nested function settles. |
| `SilentExcept.TargetNamesAreUnpacked` | scripts/check_silent_except_return_reachability.py:176-186 | A target binds exactly the names that stand inside nothing but tuples and lists. |
| `SilentExcept.HandlerBoundNames` | scripts/check_silent_except_return_reachability.py:189-204 | A result exists if and only if the body only assigns and binds some name, and it is the set of bound names. |
| `SilentExcept.CollectReturns` | scripts/check_silent_except_return_reachability.py:207-223 | The recursive append walk collects exactly the returns that no `def` and no lambda separates from the function. |
| `SilentExcept.OwnScopeMeans` | scripts/check_silent_except_return_reachability.py:214-220 | Own scope means that no node on the way down, the node itself included, is a `def` or a lambda. |
| `SilentExcept.ReturnReferencesAny` | scripts/check_silent_except_return_reachability.py:226-238 | True if and only if the return value mentions one of the names at any depth. |
| `SilentExcept.TopIsNearest` | scripts/check_silent_except_return_reachability.py:294-296 | The top of the stack is the nearest enclosing `def`, and the stack is empty exactly when there is none. |
| `SilentExcept.Visitor.IsSite` | scripts/check_silent_except_return_reachability.py:280-303 | With the stack of the enclosing functions, the handler test decides whether the handler swallows. |
| `SilentExcept.Visitor.Visit` | scripts/check_silent_except_return_reachability.py:280-307 | A visit restores the stack and appends the sites of the subtree in source order. |
| `SilentExcept.FindViolationSites` | scripts/check_silent_except_return_reachability.py:266-310 | A handler is reported if and only if every statement of its body is a plain assignment and some name that they bind is mentioned by a return of the nearest enclosing `def` that no `def` or lambda separates from it. |
| `SilentExcept.ModuleLevelIsSilent` | scripts/check_silent_except_return_reachability.py:304-306 | A handler outside every function is never a site. |
| `PagedReader.ParsePaginated` | scripts/detect_5265_startup_failure_blocked_prs.py:142-152 | The two nested loops over the index return the documents that the decoder reads one after another, or the decode error. |
| `PagedReader.ReadsExactlyThePages` | scripts/detect_5265_startup_failure_blocked_prs.py:123-152 | For any language of documents none of which begins another: the reader returns a list of pages if and only if the text is these pages separated by optional white space. |
| `PagedReader.CutStream` | scripts/detect_5265_startup_failure_blocked_prs.py:123-152 | A stream that was cut off reads, if it reads at all, as a first part of the pages. |
| `PagedReader.NumbersRunTogether` | scripts/detect_5265_startup_failure_blocked_prs.py:123-152 | For numbers no scanner can do this: one text is the stream of two different page lists. |
| `JsonText.ObjectsDelimitThemselves` | scripts/detect_5265_startup_failure_blocked_prs.py:126-141 | JSON objects, delimited by braces outside strings, are such a language (RFC 8259, sections 4 and 7). |
| `JsonText.PrintedPagesReadBack` | scripts/detect_5265_startup_failure_blocked_prs.py:123-152 | JSON objects printed back to back, with any nesting and any characters in their strings, are read back one by one by a decoder that counts braces. |
| `JsonText.ObjectLanguagesDelimitThemselves` | scripts/detect_5265_startup_failure_blocked_prs.py:126-141 | Every language of such objects delimits itself, so also the texts that a real JSON decoder accepts. |
| `JsonText.AnyObjectDecoderReads` | scripts/detect_5265_startup_failure_blocked_prs.py:123-152 | Hence with any decoder of objects the reader returns a list of pages if and only if the text is their stream. |
| `PagedMerge.MergePages` | scripts/detect_5265_startup_failure_blocked_prs.py:155-181 | All items in order, refused exactly when the last total differs from their number. |
| `PagedMerge.MergeIsAllOrRefused` | scripts/detect_5265_startup_failure_blocked_prs.py:155-181 | For any non-empty subsequence of a server's pages, each with the true total, the merge is refused or is the full population, and it is refused if and only if a dropped page had items. |
| `PagedMerge.ReadListing` | scripts/detect_5265_startup_failure_blocked_prs.py:184-191 | Splitting, loading and merging composed, with both ways to fail. |
| `PagedMerge.InterruptedReadIsSafe` | scripts/detect_5265_startup_failure_blocked_prs.py:123-181 | Output that was cut anywhere behind its first visible character is refused or yields the full population. |
| `PagedMerge.AliveIff` | scripts/detect_5265_startup_failure_blocked_prs.py:69-92 | A head with runs is not blocked if and only if some run is no startup failure, has jobs, or has an unknown number of them. |
| `PagedMerge.LostPagesNeverFlipTheVerdict` | scripts/detect_5265_startup_failure_blocked_prs.py:69-92 | Corollary: lost pages never change whether a head counts as permanently blocked. |
| `PagedMerge.NoPageNoProof` | scripts/detect_5265_startup_failure_blocked_prs.py:164-181 | Without any page nothing is refused, and a head with runs would count as blocked. |
| `PagedMerge.AcceptedIffNoPageTwice` | scripts/detect_5265_startup_failure_blocked_prs.py:164-181 | For pages read in any order and any number of times, from a listing of distinct items: an accepted merge is the population up to order if and only if no page with items was read twice. |
| `PagedMerge.DuplicateHidesLoss` | scripts/detect_5265_startup_failure_blocked_prs.py:164-181 | The smallest loss that a page read twice hides. |
| `RequiredContexts.FamilyIsRegex` | scripts/detect_5265_missing_required_context.py:128 | The family prefix is read from exactly the names that the pattern describes, a final line break included. |
| `RequiredContexts.FindMatrixFamilyBlocked` | scripts/detect_5265_missing_required_context.py:160-182 | Exactly the required names of a family whose newest run, the first of the greatest suite, is an unexpanded template. |
| `RequiredContexts.Evaluate` | scripts/detect_5265_missing_required_context.py:200-219 | Nothing for a known draft; else exactly the required names that are never reported or family-blocked. |
| `RequiredContexts.StuckIff` | scripts/detect_5265_missing_required_context.py:160-182 | A family is blocked if and only if the first of its runs with the greatest suite has `${{` in its name. |
| `RequiredContexts.BlockedIff` | scripts/detect_5265_missing_required_context.py:150-197 | From the names: a required name is blocked if and only if no status and no run has it, or it is a job name, ` (Python `, a version and a bracket, and that job's deciding run is a template. |
| `RequiredContexts.OtherJobsDoNotMatter` | scripts/detect_5265_missing_required_context.py:160-182 | Runs of other jobs never change a family's verdict, however new they are and wherever they stand. |
| `RequiredContexts.OrderIsImmaterial` | scripts/detect_5265_missing_required_context.py:174-180 | No reordering of the runs changes the family's verdict if and only if its newest runs agree on being a template. |
| `RequiredContexts.TieIsDecidedByOrder` | scripts/detect_5265_missing_required_context.py:179 | The smallest disagreement: a template and a concrete run of the same suite. |
| `RequiredContexts.NewerConcreteRunUnblocks` | scripts/detect_5265_missing_required_context.py:150-197 | A run under the required name in a suite newer than the rest of its family removes the name from the verdict. |
| `ManagedProc.EveryRunIsSound` | scripts/_reyn_web_proc.py:88-121 | Over every interleaving with signals at any point: a live process is managed except between `Popen` and `append`, no process is listed twice, and a cleanup still holds every live managed process. |
| `ManagedProc.OrphanIffInWindow` | scripts/_reyn_web_proc.py:65-98 | In every run that ends and raises no signal that ends the driver without a cleanup, failed installs allowed: a process outlives the driver if and only if the end fell between its `Popen` and its `append` and it did not exit by itself. |
| `ManagedProc.InstalledRunsAreOrderly` | scripts/_reyn_web_proc.py:79-85 | When every handler could be installed, every run is one of those. |
| `ManagedProc.SignalClearsTheTable` | scripts/_reyn_web_proc.py:59-77 | From any sound state, a handled signal, or an unhandled interrupt that runs the `atexit` hook, and the cleanup it starts leave nothing alive but a process in that window. |
| `ManagedProc.WindowOrphans` | scripts/_reyn_web_proc.py:94-98 | The window is real: wherever a call stands before `Popen`, such a signal right after it orphans exactly the new process. |
| `ManagedProc.FailedInstallOrphans` | scripts/_reyn_web_proc.py:79-85 | A termination or hangup signal whose handler could not be installed orphans even a managed process. |
| `ManagedProc.SecondInterruptOrphans` | scripts/_reyn_web_proc.py:59-77 | Without a handler the first interrupt runs the `atexit` hook; a second one while it runs ends the driver and orphans what is left. |
| `ManagedProc.InstallRuns` | scripts/_reyn_web_proc.py:65-85 | The installation steps set the flag whichever handlers could be installed. |
| `ManagedProc.Manager.CleanupAll` | scripts/_reyn_web_proc.py:59-62 | Terminates everything listed, nothing else, and empties the list. |
| `ManagedProc.Manager.InstallHandlers` | scripts/_reyn_web_proc.py:65-85 | Installs the handlers that can be installed and sets the flag once; a second call changes nothing. |
| `ManagedProc.Manager.SpawnReynWeb` | scripts/_reyn_web_proc.py:88-98 | Undisturbed, the call is the run of its steps and adds one live, managed process. |
| `ManagedProc.Manager.StopReynWeb` | scripts/_reyn_web_proc.py:101-121 | Undisturbed, the call is the run of its steps: the process is dead and off the list, and stopping it again changes nothing. |

## Left out

- `gh`, `git`, files, subprocesses, arguments, printing and exit codes of the command lines; what they return is an input.
- `ast.parse`, `tokenize`, `json` and `re`: trees, spans, token lines and the decoder of a page are inputs, patterns are recognisers.
- Operator and context nodes of Python trees, except that a name says whether it is loaded and a division that it is one.
- Column offsets as UTF-8 bytes: columns are character indices, and spans are valid, as the parser and the tokenizer give them.
- Unicode beyond the tables: `Text.IsWord` is exact on Latin-1 and goes by block for Greek, Cyrillic, kana, CJK and Hangul; `\d` and `int` know ASCII digits only; `str.lower` is modelled as far as the searched terms can tell.
- The wording of messages: a finding is its kind and its key, a verdict its kind.
- `Drift.CheckDocDriftPure`: takes `sorted` as a parameter with its order; `RequiredContexts.Evaluate`: its result is the set that the source sorts.
- `DiffContext.DiffTextReadsBack`: asks that a break in a context line or heading leave only plain lines behind, one in a meta line only inert ones, and that old paths, which git quotes when they hold control characters, have none; a break that leaves a line starting with a diff mark is not classified.
- The exclusion of history documents and keywords, which are prefix and table tests on inputs.
- `module_level_glob_roots` and its gate, a second use of the path resolver that adds a file-existence test.
- `PathMoves.MoveSafety`: asks for relative literals without `..`; `PathMoves.SurvivesIffLow` covers all others. Directories hold no symbolic links, and the place of the file and the destination of a move are written without `..`.
- `PathMoves.PassedAndBrokenIff`: speaks of files in a bucket; a file directly in the tests directory has no home that could move.
- `ClosingText.FindDiscussing`: looks for a marker at every offset, while the script's scan resumes behind each match; a marker holds no `<` behind its first character, so no two overlap.
- `SilentExcept.FindViolationSites`: a site is its node; end lines and the marker comments that excuse a site are not modelled.
- `PagedMerge.MergePages`: a page is its items and its total; the other keys, copied from the first page, and the second query for job counts are not modelled.
- `ManagedProc.Manager.Terminate`: the escalation from SIGTERM to SIGKILL and its timeout count as one step after which the group is dead; a SIGKILL of the driver itself is uncatchable and outside the model.
- `ManagedProc.OrphanIffInWindow`: a driver that catches the exception of an interrupt and goes on is not modelled.
- The diff gates' set ratchets, link, label, word-count and import gates, overlap scoring with `difflib`, heuristic classifiers, and the dogfood and image scripts: one-pattern scans, unseen libraries or plumbing.
