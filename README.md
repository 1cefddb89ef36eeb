# Markdown ChatGPT conversations and BBEdit jump points, in Dafny

This project models two small pieces of logic and proves what they promise.

**The conversation script** (`scripts/chatgpt.py`) reads a Markdown file as a
conversation:

- Lines starting with `#` are headers, lines starting with `>` are the
  assistant's, blank lines are space, and every other line is the user's.
- `conversation_parts` groups the lines into alternating user and assistant
  messages. `content_from` normalises each message's text.
- `process` appends the assistant's reply as a `> ` blockquote, unless the
  last message already is the assistant's.

The model has five modules:

- `PyStr` (`py_str.dfy`) writes out the Python string operations the script
  uses.
- `ChatGptText` (`chatgpt_text.dfy`) holds `classify`, `content_from` with its
  newline collapse, and `format_reply`.
- `ChatGptSegment` (`chatgpt_segment.dfy`) holds the segmenter:
  - It is specified as a fold over single lines. That fold is characterised
    against an independent reference: the message kinds with repeats merged,
    and the relevant lines.
  - `conversation_parts` itself is a method. It splits the lines into
    `groupby` runs and advances over them.
- `ChatGptProcess` (`chatgpt_process.dfy`) holds the role check and the
  append step of `process`. The service's reply is a parameter.
- `ChatGptExamples` (`chatgpt_examples.dfy`) works three small documents
  through `conversation_parts` and `process`, line by line and message by
  message.

**The jump-point store** keeps, for each BBEdit process id, a stack of saved
cursor locations that expire after an hour:

- The Rust library (`bbedit_jump_points/src/lib.rs`) is modelled in
  `JumpPoints` (`jump_points.dfy`). That module also holds the push and pop
  runs that the Rust binaries and the Python script share.
- The binaries are modelled in `PushPoint` (`push_point.dfy`) and `PopPoint`
  (`pop_point.dfy`).
- The Python script (`scripts/jump_points.py`) is modelled in `JumpPointsPy`
  (`jump_points_py.dfy`).

Both implementations are proved against the same specification functions:
`Pruned`, `PushRun` and `PopAt`.

Timestamps are whole seconds, so `MaxAge` is 3600. The example timestamps
2023-10-03T07:59:59Z and 08:00:00Z are 1696319999 and 1696320000.

## Model

| member | source | states |
|---|---|---|
| ChatGptText.Classify | scripts/chatgpt.py:49-57 | a line is never classified `undefined`; it is a header exactly when it starts with `#`, the assistant exactly when it starts with `>`, space exactly when it is all whitespace, and the user exactly when none of these holds, so the `#` and `>` checks come before the blank check |
| ChatGptText.Collapse | scripts/chatgpt.py:31 | the `SPACES` substitution leaves no run of three newlines, never lengthens the text, and keeps its first and last characters |
| ChatGptText.CollapseKeepsText | scripts/chatgpt.py:31 | collapsing removes only newlines: the text without newlines is unchanged |
| ChatGptText.CollapseFixpoint | scripts/chatgpt.py:31 | collapsing leaves a text unchanged exactly when it has no run of three newlines |
| ChatGptText.CollapseIdempotent | scripts/chatgpt.py:31 | collapsing twice is collapsing once |
| ChatGptText.CollapseRun | scripts/chatgpt.py:31 | a whole run of two or more newlines becomes exactly one blank line (`"\n\n"`), a single newline stays, and the text on each side collapses on its own |
| ChatGptText.CleanLine | scripts/chatgpt.py:62 | each line loses all its leading `>` characters, then its surrounding whitespace |
| ChatGptText.ContentFrom | scripts/chatgpt.py:60-62 | a message's text has no leading or trailing whitespace and no run of three newlines |
| ChatGptText.ContentFromBlankLines | scripts/chatgpt.py:62 | blank lines at the end of a block do not change its text |
| ChatGptText.ContentFromText | scripts/chatgpt.py:60-62 | apart from newlines, a message's text is exactly the cleaned lines of its block, in order |
| ChatGptText.ContentFromEmpty | scripts/chatgpt.py:60-62 | a message's text is empty exactly when every line of its block cleans to nothing |
| ChatGptText.FormatReply | scripts/chatgpt.py:90-92 | the blockquote is empty exactly when the reply is |
| ChatGptText.FormatReplyLines | scripts/chatgpt.py:90-92 | the blockquote's lines are the reply's lines each prefixed with `> `, and every one of them classifies as assistant |
| ChatGptText.ContentOfQuoted | scripts/chatgpt.py:62 | read back as a message, a quoted reply is its lines stripped, joined and collapsed |
| ChatGptSegment.BlocksCharacterised | scripts/chatgpt.py:67-87 | the blocks' kinds are the message kinds of the lines with repeats merged, and their lines are the relevant lines (from the first message on, without headers) |
| ChatGptSegment.PartsAlternate | scripts/chatgpt.py:79-84 | every yielded kind is user or assistant, and no two neighbours share a kind |
| ChatGptSegment.PartsEnds | scripts/chatgpt.py:70-74 | nothing is yielded exactly when no line is a user or assistant line; the first and last parts have the kinds of the first and last message lines |
| ChatGptSegment.PartsFromMessageBlocks | scripts/chatgpt.py:82-87 | each part is the `content_from` of a nonempty, well-formed block, and the open block is yielded once at the end |
| ChatGptSegment.HeaderIgnored | scripts/chatgpt.py:76-77 | a header line changes no block |
| ChatGptSegment.LeadingSkipped | scripts/chatgpt.py:71-73 | lines before the first user or assistant line change nothing |
| ChatGptSegment.FeedNoMessage | scripts/chatgpt.py:67-74 | without user or assistant lines the segmenter stays in its start state |
| ChatGptSegment.FeedRun | scripts/chatgpt.py:70 | feeding a `groupby` run line by line equals advancing over the run at once |
| ChatGptSegment.GroupBy | scripts/chatgpt.py:70 | the runs concatenate to the lines, are nonempty, hold lines of one kind, and neighbours differ in kind |
| ChatGptSegment.ConversationParts | scripts/chatgpt.py:65-87 | the loop over runs yields the specified parts: alternating messages, and none exactly when there is no message line |
| ChatGptExamples.ContentFromTidyLine | scripts/chatgpt.py:60-62 | a block of one printable, unquoted, stripped line is that line |
| ChatGptExamples.ContentFromQuotedLine | scripts/chatgpt.py:60-62 | a block of one such line behind `"> "` is the line without the quote |
| ChatGptExamples.ContentFromTidyLines | scripts/chatgpt.py:60-62 | a block of two such lines keeps them on two lines |
| ChatGptExamples.TitleThenExchange | scripts/chatgpt.py:65-87 | `"# Title\n\nHello\n\n> Hi there\n"` yields a user `Hello` and an assistant `Hi there` |
| ChatGptExamples.ConsecutiveUserLines | scripts/chatgpt.py:65-87 | two user lines in a row yield one user message holding both lines |
| ChatGptExamples.BlankLinesBeforeReply | scripts/chatgpt.py:65-87 | `"Q\n\n\n\n> A\n"` yields a user `Q` and an assistant `A`: the blank lines vanish from the question |
| ChatGptProcess.Messages | scripts/chatgpt.py:97-102 | the system prompt comes first, followed by one user or assistant message per part |
| ChatGptProcess.MessagesOf | scripts/chatgpt.py:99-102 | message `i + 1` carries part `i`'s kind value and content |
| ChatGptProcess.NeedsReplyParts | scripts/chatgpt.py:104 | a reply is wanted exactly when there are no parts or the last part is the user's |
| ChatGptProcess.NeedsReplyLines | scripts/chatgpt.py:104 | a reply is wanted exactly when there is no message line or the last one is the user's |
| ChatGptProcess.Process | scripts/chatgpt.py:95-113 | an answered document comes back unchanged; otherwise the result parses as the document's parts followed by one assistant part holding the quoted reply (none when the reply is empty) |
| ChatGptProcess.AppendedParts | scripts/chatgpt.py:113 | appending the quoted reply after the right-stripped document adds exactly one assistant part |
| ChatGptProcess.AppendedEmptyReply | scripts/chatgpt.py:113 | appending an empty reply adds only blank lines, so the parts are unchanged |
| ChatGptProcess.RStripBlank | scripts/chatgpt.py:113 | right-stripping the document and adding a blank line keeps what the segmenter would yield |
| ChatGptProcess.BlankDocument | scripts/chatgpt.py:70-73 | a whitespace-only document has no parts |
| ChatGptProcess.ProcessIdempotent | scripts/chatgpt.py:104-105 | once a reply is appended, processing again returns the document unchanged |
| ChatGptExamples.AnsweredDocumentUnchanged | scripts/chatgpt.py:104-105 | the document ending in the quoted `Hi there` comes back unchanged, whatever the reply |
| ChatGptExamples.QuestionNeedsReply | scripts/chatgpt.py:104 | the document of two user lines is sent to the service |
| PyStr.SplitJoin | scripts/chatgpt.py:92 | `splitlines` undoes `"\n".join` on lines without breaks whose last line is nonempty |
| PyStr.Strip | scripts/chatgpt.py:55 | `strip` removes exactly the leading and trailing whitespace, and is empty exactly for all-whitespace text |
| JumpPoints.Unexpired | bbedit_jump_points/src/lib.rs:118 | a point is kept exactly when it was added at or after the cutoff |
| JumpPoints.UnexpiredAppend | bbedit_jump_points/src/lib.rs:117-119 | filtering keeps the points' order: it distributes over concatenation |
| JumpPoints.UnexpiredKeepsAll | bbedit_jump_points/src/lib.rs:118 | a list is unchanged exactly when none of its points has expired |
| JumpPoints.UnexpiredNone | bbedit_jump_points/src/lib.rs:118 | a list whose points have all expired becomes empty |
| JumpPoints.UnexpiredTwice | bbedit_jump_points/src/lib.rs:118 | filtering at a cutoff and then at a later one is filtering at the later one |
| JumpPoints.Pruned | bbedit_jump_points/src/lib.rs:113-124 | a loaded store has no empty list, and every point in it is recent enough |
| JumpPoints.PrunedKeys | bbedit_jump_points/src/lib.rs:120-121 | a process is kept exactly when one of its points is recent enough, and keeps its unexpired points |
| JumpPoints.PointsFrom | bbedit_jump_points/src/lib.rs:113-124 | retaining in place in each list, then dropping empty lists, gives the pruned store |
| JumpPoints.SavePoints | bbedit_jump_points/src/lib.rs:127-133 | the written store is the store without its empty lists |
| JumpPoints.PrunedLater | bbedit_jump_points/src/lib.rs:109-112 | a later cutoff gives a sub-map of an earlier one's result, and pruning at both is pruning at the later |
| JumpPoints.PrunedIdempotent | bbedit_jump_points/src/lib.rs:117-121 | pruning twice at one cutoff is pruning once |
| JumpPoints.PrunedAllExpired | bbedit_jump_points/src/lib.rs:109-112 | a cutoff after every point leaves the empty store |
| JumpPoints.SaveLoaded | bbedit_jump_points/src/lib.rs:130 | saving a loaded store writes it unchanged |
| JumpPoints.LoadSaved | bbedit_jump_points/src/lib.rs:118 | a saved store whose points are all recent enough loads back as saved |
| JumpPoints.AllPointsAreCurrent | bbedit_jump_points/src/lib.rs:152-175 | at 07:59:59 both example points are kept |
| JumpPoints.SomePointsAreCurrent | bbedit_jump_points/src/lib.rs:177-192 | at 08:00:00 the 07:59:59 point goes and the 08:00:00 point stays |
| JumpPoints.NoPointsAreCurrent | bbedit_jump_points/src/lib.rs:194-201 | at 08:00:01 nothing is left |
| JumpPoints.PushedStack | bbedit_jump_points/src/bin/bbedit_push_point.rs:31-35 | the stack of the process grows by the new point at its end, or is created holding it; other processes are untouched |
| JumpPoints.NewPointKept | bbedit_jump_points/src/bin/bbedit_push_point.rs:15-28 | a point stamped `now` survives pruning at `now` minus one hour |
| JumpPoints.PushWrites | bbedit_jump_points/src/bin/bbedit_push_point.rs:16-36 | a push writes the loaded store plus the new point on top of the process's stack, and the result survives a load at the same moment |
| JumpPoints.PopAfterPush | bbedit_jump_points/src/bin/bbedit_pop_point.rs:18-20 | popping right after a push returns the pushed point and restores the saved store |
| JumpPoints.PopWrites | bbedit_jump_points/src/bin/bbedit_pop_point.rs:16-30 | a pop takes the last point pushed that is still current for the process and writes every other current point back (dropping the process after its last point), changes no other process, and does nothing when the process has no current point |
| JumpPoints.PopAfterPushAt | bbedit_jump_points/src/bin/bbedit_pop_point.rs:16-20 | a pop at the moment of a push jumps to the pushed point and writes the store the push loaded |
| JumpPoints.NatDecimal | bbedit_jump_points/src/bin/bbedit_pop_point.rs:23 | an integer is written as digits without leading zeros |
| JumpPoints.DecimalRoundTrip | bbedit_jump_points/src/bin/bbedit_pop_point.rs:23 | reading a written integer back gives the integer |
| JumpPoints.JumpArgRoundTrip | bbedit_jump_points/src/bin/bbedit_pop_point.rs:23 | the `+line:column` argument has one colon, with the line before it and the column after it |
| PushPoint.Run | bbedit_jump_points/src/bin/bbedit_push_point.rs:7-37 | `main` either stops because a document variable is missing, or writes the pushed store |
| PopPoint.Run | bbedit_jump_points/src/bin/bbedit_pop_point.rs:7-31 | `main` pops as specified and returns the editor command for the popped point, or no command |
| JumpPointsPy.GetPoints | scripts/jump_points.py:54-80 | a missing file loads as the empty store; otherwise the loop builds the pruned store |
| JumpPointsPy.SavePoints | scripts/jump_points.py:89-93 | the written dictionary holds exactly the processes with points, with their lists |
| JumpPointsPy.SetupLogging | scripts/jump_points.py:99-112 | the level follows the number of `-v` flags after the program name |
| JumpPointsPy.VerboseCountAppend | scripts/jump_points.py:102-105 | the flag counts of two argument lists add up |
| JumpPointsPy.VerboseCountZero | scripts/jump_points.py:102-105 | the count is zero exactly when no argument is `-v` |
| JumpPointsPy.LevelChoices | scripts/jump_points.py:107-112 | the level is DEBUG, INFO or WARNING; it is WARNING exactly without `-v`, and DEBUG exactly from two flags on |
| JumpPointsPy.MoreFlagsMoreVerbose | scripts/jump_points.py:102-112 | more arguments never make the logging less verbose |
| JumpPointsPy.ProgramNameIgnored | scripts/jump_points.py:103 | the program name is never counted, even when it is `-v` |
| JumpPointsPy.Push | scripts/jump_points.py:117-139 | `push` stops without document variables; otherwise it writes the same store as the Rust push |
| JumpPointsPy.Pop | scripts/jump_points.py:142-166 | `pop` does the same as the Rust pop, including writing nothing for a process without points |
| JumpPointsPy.NoFile | scripts/jump_points.py:57-61 | without a points file, a pop does nothing and a push writes the new point alone |

## Left out

- The points file's YAML encoding is not modelled, on either side. Each run
  starts from the store as parsed, and the written store is returned. The
  Python file wraps the map in a `points` key and the Rust file does not.
  A Python file without that key fails with a `KeyError`. An empty Python
  file makes `yaml.safe_load` return `None`, and indexing it raises a
  `TypeError` (scripts/jump_points.py:63). Neither failure is modelled.
- Rust's `get_points` on a missing or unreadable file hands an empty string
  to the YAML parser. What that parser does with it is outside the model.
  The Python missing-file case is modelled as `None`.
- Directories and paths are left out: `ProjectDirs`, `xdg`, `create_dir` and
  `mkdir`.
- The front process id comes from `lsappinfo`, through `front_app_asn`,
  `pid_for_asn` and `front_app_pid`. In the model it is a parameter.
- Launching `/usr/local/bin/bbedit` is not modelled. The pop returns the
  command line instead of running it.
- The clock and timezones are left out. Times are integers in seconds, and
  `now` is a parameter.
- Integer widths are not modelled: the Rust pid is `i32` and line and column
  are `i64`. Dafny integers are unbounded, and no value in the model
  overflows.
- The environment variables are modelled only as present or missing. A
  present value that does not parse as an integer makes Rust's `unwrap`
  panic and Python's `int` raise; both are left out.
- Python's printed "Not launched from BBEdit." and its exit status are not
  modelled. The Rust panic on a missing variable is not modelled either.
  Both become `NotLaunchedFromEditor`.
- In Rust, a missing document variable stops the push after the store is
  loaded. In Python it stops before the load. Neither writes anything, so
  the model does not distinguish them.
- Logging output is not modelled: `LOG.*`, `logging.basicConfig` and
  `eprintln!`. `SetupLogging` returns the chosen level.
- The OpenAI call, the configuration file and stdin/stdout are left out.
  The reply is a parameter of `Process`.
- `re` and `itertools.groupby` are not modelled as libraries. The `SPACES`
  substitution is written out as `Collapse`, and the grouping as the
  `GroupBy` loop.
- `str.isspace` and `str.splitlines` are modelled with their character sets
  for the Latin-1 range and the Unicode separators. Unicode normalisation
  and other encodings do not arise.
