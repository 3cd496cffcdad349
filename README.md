# diffstory core, modelled in Dafny

This project models three self-contained pieces of diffstory, a terminal diff viewer:

- **Tab-aware display width** (`Width`, from `bubbletea/width.go`). A line is walked rune by rune with a column counter. A tab moves the column on to the next multiple of 8, and any other rune adds its cell width. `DisplayWidthFrom` is a loop proved equal to the recursive specification `WidthFrom`, and `DisplayWidth` calls it from column 0. The lemmas prove the concatenation law, monotonicity, the tab-stop arithmetic and every expected value of the display-width tests. The cell width of a non-tab rune comes from the terminal layout library, so it is the parameter `w: char -> nat`. The concrete examples assume only that printable ASCII is one cell wide and that the three CJK characters of the test are two cells wide.
- **Narrative diagram layout** (`Intro`, from `bubbletea/intro.go`). A narrative tag and the story's sections select a diagram: a linear flow of roles joined by arrows, a hub-and-spoke picture around the `"core"` role, or nothing. The diagram is an abstract `Diagram` value (`Empty`, `Linear(parts)`, `CoreOnly`, `RightOnly(spokes)`, `Cardinal(rows)`) and not a rendered string. Five source functions build slices in loops: `extractRoles`, `linearFlowDiagram`, `hubAndSpokeDiagram`, `rightOnlyHubAndSpoke` and `cardinalHubAndSpoke`. Each is an imperative method proved equal to a specification function, and the properties are proved about those functions.
- **Diff domain types** (`DiffView`, from `diffview.go`). These are datatypes for `Diff`, `FileDiff`, `Hunk`, `Line`, `FileOp` and `LineType`. Predicates state the invariants in the fields' doc comments, and functions count the added and deleted lines shown in a file header's statistics.

`Wrappers` holds an `Option` type.

Two invariants are kept separate from well-formedness:
- `LineWellFormed` states only the direction given by the doc comments at `diffview.go:49-50`: an Added line has old number 0 and a Deleted line new number 0. The converse fails on the statistics fixture at `bubbletea/model_rendering_test.go:643-652`, whose Context lines are numbered 0. The stronger `LineNumbered` predicate describes a parser's numbering, and `NumberedLineZeros` proves that under it the zeros identify the line type in both directions.
- No doc comment says that a hunk's header counts equal its line counts, and the same fixture breaks this: its header says 5 and 7, but its lines give 4 and 6. So this is the separate predicate `HunkCountsMatch`. `StatsFixtureCounts` proves how the fixture fails it.

Go's `/` truncates toward zero and Dafny's does not, so `GoDiv` models Go's operator. From a negative start column that is not a tab stop, a tab goes past the nearest stop: from column -1 it reaches 8. `NegativeColumnSkipsStop` shows this. The model keeps the behaviour, because the callers that would pass such a column are not part of this model.

## Model

| member | source | states |
|---|---|---|
| `Width.GoDiv` | bubbletea/width.go:24 | Division truncates toward zero: the remainder is smaller than the divisor in magnitude and has the sign of the dividend. |
| `Width.NextTabStop` | bubbletea/width.go:22-24 | A tab lands on a multiple of 8 strictly beyond the column, and at most 8 beyond when the column is not negative. |
| `Width.NextTabStopIsLeast` | bubbletea/width.go:22-24 | From a non-negative column, no tab stop beyond the column comes before the tab's target. |
| `Width.NegativeColumnSkipsStop` | bubbletea/width.go:24 | With truncating division, a tab goes from -1 to 8, from -8 to 0 and from -9 to 0. |
| `Width.WidthFrom` | bubbletea/width.go:19-30 | The column after writing a string is never less than the start column. |
| `Width.DisplayWidthFrom` | bubbletea/width.go:19-30 | The rune-by-rune loop returns the specified column `WidthFrom(s, startCol, w)`. |
| `Width.DisplayWidth` | bubbletea/width.go:10-13 | The display width is the column reached when writing from column 0. |
| `Width.WidthFromConcat` | bubbletea/width.go:15-19 | Writing `a + b` from column c gives the same result as writing `b` from the column where `a` ends. |
| `Width.WidthWithoutTabs` | bubbletea/width.go:25-26 | Without tabs, the width added is the sum of the runes' cell widths. |
| `Width.NarrowTextWidth` | bubbletea/width.go:25-26 | Tab-free text of one-cell runes adds exactly its length. |
| `Width.EndsOnTabStop` | bubbletea/width.go:22-24 | Text ending in a tab ends on a tab stop, beyond where the text before the tab ended. |
| `Width.NarrowSuffix` | bubbletea/width.go:15-26 | Appending tab-free one-cell text adds its length to the width. |
| `Width.TabSuffix` | bubbletea/width.go:15-24 | Appending a tab moves the width on to the next tab stop. |
| `Width.TabAfterNarrow` | bubbletea/width.go:22-26 | One-cell text followed by a tab ends at the tab stop after the text's length. |
| `Width.PlainWidthExamples` | bubbletea/width_test.go:19-33 | `""` has width 0, `"hello"` has width 5 and `"\t"` has width 8. |
| `Width.TabAfterTextExamples` | bubbletea/width_test.go:34-48 | `"a\t"` and `"1234567\t"` have width 8, and `"12345678\t"` has width 16. |
| `Width.TwoTabsExample` | bubbletea/width_test.go:49-53 | `"\t\t"` has width 16. |
| `Width.TextAroundTabExample` | bubbletea/width_test.go:54-58 | `"abc\tdef"` has width 11. |
| `Width.IndentedCodeExample` | bubbletea/width_test.go:59-63 | `"\t\tconst x = 1;"` has width 28. |
| `Width.WideTextExample` | bubbletea/width_test.go:64-67 | With two-cell CJK runes, `"日本\t語"` has width 10. |
| `DiffView.FileOpValue` | diffview.go:27-33 | Each file operation's integer value lies in 0..4. |
| `DiffView.FileOpExactlyFive` | diffview.go:27-33 | The values 0..4 correspond one to one with the five operations, and no other integer names an operation. |
| `DiffView.LineTypeValue` | diffview.go:58-62 | Each line type's integer value lies in 0..2. |
| `DiffView.LineTypeExactlyThree` | diffview.go:58-62 | The values 0..2 correspond one to one with Context, Added and Deleted, and no other integer names a line type. |
| `DiffView.LineWellFormed` | diffview.go:49-50 | An Added line has old number 0 and a Deleted line new number 0. A Context line always satisfies this, and a well-formed line with both numbers non-zero is a Context line. |
| `DiffView.LineNumbered` | diffview.go:47-50 | A parser-numbered line is well formed, and it is a Context line exactly when both its numbers are at least 1. |
| `DiffView.HunkWellFormed` | diffview.go:42-50 | A hunk is well formed when every line is well formed. Then every Added line has old number 0 and every Deleted line new number 0. A hunk of Context lines is always well formed. |
| `DiffView.FileDiffWellFormed` | diffview.go:13-16 | A new file has no old path, a deleted file no new path, and a binary file no hunks. Every line of a well-formed file is well formed, and a well-formed binary file has no lines. A modification without hunks is well formed. |
| `DiffView.DiffWellFormed` | diffview.go:7-9 | A diff is well formed when each file change is. Then every line of every hunk of every file is well formed. The empty diff is well formed. |
| `DiffView.NumberedLineZeros` | diffview.go:49-50 | For parser-numbered lines, an old number of 0 means Added and a new number of 0 means Deleted, in both directions, and a Context line has both numbers. |
| `DiffView.CountTypeAppend` | bubbletea/model_rendering_test.go:643-669 | Line counts by type add up over concatenated line lists. |
| `DiffView.CountTypesPartition` | diffview.go:58-62 | Every line has exactly one type, so the three counts sum to the number of lines. |
| `DiffView.CountRun` | bubbletea/model_rendering_test.go:643-652 | A run of lines of one type counts fully for that type and not at all for the others. |
| `DiffView.CountType` | diffview.go:42-47 | The count of lines of one type is at most the number of lines. It is 0 exactly when no line has that type. |
| `DiffView.FileCount` | bubbletea/model_rendering_test.go:643-669 | Counting a type hunk by hunk gives the count over all of the file's lines, in order. |
| `DiffView.FileStats` | bubbletea/model_rendering_test.go:669 | The "+N -M" statistics count the Added and the Deleted lines of the file's hunks. Together they are at most all of its lines. |
| `DiffView.BinaryFileHasNoStats` | diffview.go:16 | A well-formed binary file change has no hunks, so it shows +0 -0. |
| `DiffView.SideDifference` | diffview.go:36-43 | When the header counts match the lines, the new count exceeds the old count by the added minus the deleted lines. The old count plus the added lines is the number of lines. |
| `DiffView.StatsFixtureCounts` | bubbletea/model_rendering_test.go:643-669 | The fixture file is well formed and shows "+4 -2". Its header counts 5/7 do not match its lines 4/6. |
| `DiffView.StatsFixtureLineCounts` | bubbletea/model_rendering_test.go:643-652 | The fixture has two Context, four Added and two Deleted lines. |
| `DiffView.StatsFixtureWellFormed` | bubbletea/model_rendering_test.go:643-652 | Every fixture line is numbered 0 on both sides, so the hunk is well formed. |
| `DiffView.LargeFixtureNumbered` | bubbletea/large_diff_test.go:35-64 | Every line of the large-diff generator (types cycling Added, Deleted, Context) is numbered as a parser numbers lines. |
| `DiffView.GutterFixtureNumbered` | bubbletea/model_rendering_test.go:436-454 | The context 10/10, deleted 11/0 and added 0/11 lines are correctly numbered. |
| `DiffView.EmptyFileFixtures` | bubbletea/model_rendering_test.go:969-1009 | An added file with no old path and a deleted file with no new path are well formed. An added file with an old path is not. |
| `Intro.ParseNarrative` | bubbletea/intro.go:20-27 | A recognised tag is the tag of the kind it names. A tag names no kind exactly when it is none of the five tags. |
| `Intro.NarrativeTagRoundTrip` | bubbletea/intro.go:20-27 | The five tags and the five narrative kinds correspond one to one. |
| `Intro.RolesDistinct` | bubbletea/intro.go:195-206 | The extracted roles have no duplicates and no empty strings. |
| `Intro.RolesMembership` | bubbletea/intro.go:195-206 | A role is extracted exactly when it is non-empty and some section plays it. |
| `Intro.FirstIndex` | bubbletea/intro.go:199-203 | Returns the first section with a given role, or the number of sections when none has it. |
| `Intro.RolesFirstSeenOrder` | bubbletea/intro.go:195-206 | Roles appear in the order of their first occurrences. |
| `Intro.ExtractRoles` | bubbletea/intro.go:196-206 | The loop with its seen map returns exactly the first-seen distinct non-empty roles. |
| `Intro.FlowParts` | bubbletea/intro.go:43-52 | For n roles there are 2n-1 parts: role j at position 2j and an arrow between each two roles. |
| `Intro.FlowPartsCounts` | bubbletea/intro.go:43-52 | For distinct roles there are n-1 arrows, and each role's node appears exactly once. |
| `Intro.FlowArrowCount` | bubbletea/intro.go:43-52 | A flow of n roles has n-1 arrows. |
| `Intro.FlowNodeCount` | bubbletea/intro.go:43-52 | In a flow of distinct roles, each role's node appears exactly once and no other role has a node. |
| `Intro.LinearFlowDiagram` | bubbletea/intro.go:31-55 | Appending a node and an arrow per role and then dropping the trailing arrow gives the specified flow. With no roles the diagram is empty. |
| `Intro.Peripherals` | bubbletea/intro.go:77-85 | There are no more peripherals than roles, and the core is never one of them. |
| `Intro.PeripheralsWithoutCore` | bubbletea/intro.go:77-85 | Without a core role, every role is peripheral. |
| `Intro.PeripheralsRemoveCore` | bubbletea/intro.go:77-85 | With distinct roles, the peripherals are the roles in order with the core removed, so there is exactly one fewer. |
| `Intro.CoreOnlyOnce` | bubbletea/intro.go:195-206 | Among distinct roles, the core at one position appears at no other position. |
| `Intro.PeripheralsAroundCore` | bubbletea/intro.go:77-85 | A single core among core-free roles is the only role dropped from the peripherals, and the order is kept. |
| `Intro.PeripheralsMembership` | bubbletea/intro.go:77-85 | A role is peripheral exactly when it is listed and is not the core. |
| `Intro.Spokes` | bubbletea/intro.go:115-120 | The right-only column has one line per peripheral, in order, each `"── "` followed by the role. |
| `Intro.RightOnlyHubAndSpoke` | bubbletea/intro.go:114-124 | The loop produces the core node beside the column of spokes for every peripheral. |
| `Intro.CardinalHubAndSpoke` | bubbletea/intro.go:128-193 | The loop assigns peripherals 0..3 to right, left, top and bottom. The rows are the top section, the middle row and the bottom section, each section only when it is assigned. |
| `Intro.HubAndSpokeDiagram` | bubbletea/intro.go:70-111 | Splitting off the core and choosing a layout by the peripheral count gives the specified hub layout. |
| `Intro.HubPlacement` | bubbletea/intro.go:99-142 | With no peripherals only the core is shown. With 2-4 they go right, left, top, bottom, and rows run top, middle, bottom. With 1 or 5+ they are all listed on the right, in order. |
| `Intro.HubLayoutEmptyIff` | bubbletea/intro.go:70-90 | A hub-and-spoke diagram is drawn exactly when a core role is present. |
| `Intro.NarrativeDiagram` | bubbletea/intro.go:11-28 | The method returns the specified diagram for every tag and every list of sections. |
| `Intro.DispatchByTag` | bubbletea/intro.go:20-27 | The four linear tags select the flow, `"core-periphery"` selects the hub, and unknown tags select nothing, for any list of sections. |
| `Intro.DiagramEmptyIff` | bubbletea/intro.go:11-110 | The diagram is empty exactly when there are no sections, the tag is unknown, no section has a role, or a hub is requested without a core. |
| `Intro.LinearFlowArrows` | bubbletea/intro_test.go:107-127 | A linear narrative shows one arrow fewer than it has distinct roles. |
| `Intro.DeduplicatesRolesExample` | bubbletea/intro_test.go:107-127 | fix, fix, test gives fix → test, with exactly one arrow. |
| `Intro.EmptyDiagramExamples` | bubbletea/intro_test.go:70-105 | No sections, sections without roles, and an unknown tag all give the empty diagram. |
| `Intro.NoCoreExample` | bubbletea/intro_test.go:184-198 | A core-periphery story without a core gives the empty diagram. |
| `Intro.RolesOfFreshSections` | bubbletea/intro.go:195-206 | Sections whose roles are non-empty and pairwise different yield exactly those roles, in order. |
| `Intro.CorePeripheryFresh` | bubbletea/intro.go:11-24 | A core-periphery story whose sections carry distinct non-empty roles is drawn as the hub layout of those roles. |
| `Intro.ManyRolesExample` | bubbletea/intro_test.go:200-222 | core, supporting, supporting, test, cleanup gives a single supporting spoke: supporting on the right, test on the left, cleanup on top. |
| `Intro.ManyRolesDeduplicated` | bubbletea/intro_test.go:204-210 | core, supporting, supporting, test, cleanup yield the roles core, supporting, test, cleanup. |
| `Intro.ManyRolesHub` | bubbletea/intro.go:99-193 | The roles core, supporting, test, cleanup put supporting right, test left and cleanup on top. |
| `Intro.OnePeripheralExample` | bubbletea/intro_test.go:237-255 | With one peripheral the right-only layout is used: the core beside the single spoke to test. |
| `Intro.TwoPeripheralsExample` | bubbletea/intro_test.go:257-297 | supporting is on the left of the core and test on its right, with no top or bottom section. |
| `Intro.ThreePeripheralsExample` | bubbletea/intro_test.go:299-327 | test is on the right, supporting on the left and cleanup on top, above the core's row. |
| `Intro.FourPeripheralsExample` | bubbletea/intro_test.go:329-363 | The story core, test, supporting, cleanup, infra puts test on the right, supporting on the left, cleanup on top and infra below. |
| `Intro.FivePeripheralsHub` | bubbletea/intro.go:99-124 | The roles core, test, supporting, cleanup, infra, docs give five spokes on the right, in order. |
| `Intro.FivePeripheralsExample` | bubbletea/intro_test.go:365-407 | The story with five peripherals lists them all on the right, in order. |

## Left out

- Rendering by the terminal layout library: borders, padding, `JoinHorizontal`/`JoinVertical`, centring to the middle row's width, and styles. The `Diagram` value records what is joined and in which order, not the rendered text.
- The nil-renderer default at `bubbletea/intro.go:16-18`: the renderer affects only styling, which is not modelled.
- `CardinalHubAndSpoke`: the source tests whether the rendered top and bottom sections are non-empty (`bubbletea/intro.go:184`, `:188`). The model tests the assigned roles instead. This is the same test: a section is built only when its role is non-empty (`bubbletea/intro.go:168`, `:176`), and a built section always contains the `"|"` connector (`bubbletea/intro.go:145`), so it is never empty.
- Cell width of a non-tab rune (`lipgloss.Width`): a parameter `w`, not a model of the library's Unicode width tables.
- Decoding of UTF-8 into runes by Go's `range` (including invalid bytes): strings are sequences of Unicode characters.
- Width: does not model 64-bit overflow of the column counter, because Dafny integers are unbounded.
- The `Section` type is declared in a file that is not part of this model. Only its `Role` and `Title` fields, as used by the intro tests, are modelled.
- The diff parser, word differ, tokenizer and line pairer are not modelled; `parser.go` only declares the `Parser` interface. The line statistics are counted by functions on the model, because the code that computes them is not part of this model.
- The chroma tokenizer wrapper, the home-directory lookup, the JSONL loader and the command-line classifier flow, which are library wrappers and I/O. The terminal UI behaviour checked by the rendering tests (colours, scrolling, status bar) and the performance tests are also left out.
