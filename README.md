# Division tutor: verified model of its core

This project models the core of a division tutorial for primary school. The tutorial has three pages:

- **The block board** (`src/App.jsx`). A dividend is laid out as base-ten blocks (hundreds, tens, ones) in a source pool. The student drags blocks onto `divisor` plates. The hammer breaks a hundred into ten tens, or a ten into ten ones. The glue button carries ten ones into a ten and ten tens into a hundred in every container. Reset and undo work over a bounded history of snapshots. Beside the board, a written long division reveals its rows as the student finishes each place value.
- **The word-problem page** (`src/page2.js`). It has six levels, two fallback problems per level, and the grading of a quotient and remainder with messages and a hint.
- **The problem-writing page** (`src/page3.js`). The student chats with a tutor about a problem they are writing. The first message carries the problem as context. The page then submits the name, a transcript of the chat and the revised problem.

Modules, one file each:

| file | module | what it holds |
|---|---|---|
| `wrappers.dfy` | `Wrappers` | `Option` and `Result` |
| `long_division.dfy` | `LongDivision` | the digit-by-digit division and its correctness |
| `blocks.dfy` | `Blocks` | blocks, containers, the blocks of a fresh problem, value accounting |
| `drag.dfy` | `Drag` | dropping one block, or a batch of same-type blocks |
| `hammer.dfy` | `Hammer` | breaking a block |
| `merge.dfy` | `Merge` | the glue (carrying per container) |
| `board.dfy` | `Board` | the undo history and the `Board` class with the button handlers |
| `share.dfy` | `Share` | the problem on the board, the solved check, the place-value checks, the rows revealed |
| `grading.dfy` | `Grading` | levels, fallback problems, grading and the `ProblemPage` class |
| `chat.dfy` | `Chat` | JavaScript `trim`, the chat transcript, the problem-as-context rule and the `ChatPage` class |

Loops in the source become methods proved against a specification function: `CreateBlocks`, `ComputeLongDivisionSteps`, `GlueBlocks` and `WriteEntries`. State the handlers change in place becomes a class with `modifies` clauses: the board's blocks, history, hammer and batch size; the word-problem page; the chat page. The block ids of the source are strings such as `h1` or `h-plate-0-2`. Here they are natural numbers, and only their distinctness is used.

Three facts about the code that a reader might not expect:

- A quotient digit is never clamped. `LongDivision.StepsShape` proves that with decimal digits every quotient digit is at most 9.
- A place value counts as done when some block of the type is on a plate and all plates hold equal counts, and no hundreds or tens, or fewer ones than the divisor, stay in the source. `Share.EqualShareSound` proves that every plate then holds at least one.
- The code counts a ones place with no blocks as done, even for a dividend of 0, which has no rows. See `Share.ZeroDividendQuirk`.

## Model

| member | source | states |
|---|---|---|
| LongDivision.ComputeLongDivisionSteps | src/App.jsx:101-124 | The loop's rows equal `Steps(dividend, divisor)`: none when either number is 0, otherwise one row per decimal digit with the remainder carried from row to row |
| LongDivision.DivideRow | src/App.jsx:109-121 | One loop step: the row brings down ten times the carried remainder plus the digit, and gives the floor quotient, the product and what is left |
| LongDivision.NextStepFacts | src/App.jsx:109-113 | A row's remainder is the Euclidean remainder of what it brings down, so it is below the divisor |
| LongDivision.StepsShape | src/App.jsx:101-124 | For positive numbers there are as many rows as the numeral has digits. Row i brings down 10 × (remainder of row i-1) + digit i. Its quotient digit is that divided by the divisor and at most 9, its product is quotient digit × divisor, and its remainder is below the divisor |
| LongDivision.StepsCorrect | src/App.jsx:101-124 | The last row's remainder is `dividend % divisor`, and the quotient digits read as a decimal numeral are `dividend / divisor` |
| LongDivision.StepsOverRemainder | src/App.jsx:108-122 | After any prefix of the digits, the carried remainder is that prefix's value mod the divisor, and every row's remainder is below the divisor |
| LongDivision.StepsOverQuotient | src/App.jsx:108-122 | The quotient digits of the rows for any digit sequence read as that sequence's value divided by the divisor |
| LongDivision.StepsOverDigitBound | src/App.jsx:110 | With decimal digits every quotient digit is below ten |
| LongDivision.StepsOverPrefix | src/App.jsx:108-122 | The rows for the first k digits are the first k rows: a row never depends on later digits |
| LongDivision.StepsOverSnoc | src/App.jsx:108-122 | One more digit appends exactly the row computed from the previous carry |
| LongDivision.DigitsValue | src/App.jsx:103-104 | The digit sequence of n, read back as a decimal numeral, is n |
| LongDivision.NumDigitsRange | src/App.jsx:746 | The numeral has 1, 2 or 3 characters exactly when n is below 10, between 10 and 99, or between 100 and 999 |
| LongDivision.Example132By3 | src/App.jsx:101-124 | 132 ÷ 3 gives the rows 1/0/0/1, 13/4/12/1 and 12/4/12/0 |
| Blocks.CreateBlocks | src/App.jsx:76-92 | The three loops build `InitialBlocks(dividend)`: the hundreds, then the tens, then the ones, all in the source, numbered from 1 |
| Blocks.InitialBlocksFacts | src/App.jsx:76-92 | A fresh problem has dividend / 100 hundreds, (dividend % 100) / 10 tens (below 10) and dividend % 10 ones (below 10). All are in the source, they are worth the dividend, and block k has id k + 1 |
| Blocks.InitialBlocksSound | src/App.jsx:76-92 | The fresh blocks lie in droppable containers and have distinct ids |
| Blocks.ValueByCounts | src/App.jsx:94-98 | A list is worth 100 per hundred, 10 per ten and 1 per one |
| Blocks.ValuePartition | src/App.jsx:572-592 | When every block is in the source or on a plate, the source total plus the plate totals is the total value |
| Blocks.RunFacts | src/App.jsx:81-90 | A run of n blocks of one type is worth n times the type's value, counts n of that type and lies wholly in its container |
| Drag.Moved | src/App.jsx:540-569 | A drop keeps the list's length and every block's id and type in place; each block either stays in its container or goes to the target |
| Drag.Find | src/App.jsx:550 | The block found carries the id asked for and is in the list; none is found only when no block carries the id |
| Drag.MovedKeepsBlocks | src/App.jsx:530-570 | A drop keeps every block's id and type and the list's order; each block stays put or goes to the target; total value and per-type counts are unchanged |
| Drag.MovedSound | src/App.jsx:530-570 | A drop on a droppable container keeps every block droppable and the ids distinct |
| Drag.MoveSingle | src/App.jsx:542-547 | With a batch of one, exactly the blocks carrying the dragged id move to the target |
| Drag.MoveBatch | src/App.jsx:549-569 | With a larger batch, block k moves exactly when it is the dragged block, or when it has the dragged block's type and container and fewer than batch - 1 such companions come before it |
| Drag.MoveBatchMissing | src/App.jsx:550-551 | A batch drop of an id that no block carries changes nothing |
| Drag.CompanionsAre | src/App.jsx:553-557 | The candidates for a batch are blocks of the list with the dragged block's type and container and a different id |
| Hammer.Split | src/App.jsx:608-632 | After a blow every block is either one that was on the board or a new block with an id above all old ids, so the broken id survives only on old blocks |
| Hammer.SplitShape | src/App.jsx:604-633 | Breaking a hundred or a ten removes it, keeps the other blocks in order, and appends ten blocks of the next smaller type in its container. That container then has one block fewer of the broken type and ten more of the smaller type. Breaking a one changes nothing |
| Hammer.SplitCountIn | src/App.jsx:613-629 | Breaking a block changes the counts of its own container only |
| Hammer.SplitKeepsValues | src/App.jsx:604-633 | A hammer blow keeps the value of every container and of the whole board |
| Hammer.SplitMissing | src/App.jsx:611-612 | A blow on an id no block carries changes nothing |
| Hammer.SplitSound | src/App.jsx:604-633 | A blow keeps the ids distinct and every block droppable |
| Hammer.Smaller | src/App.jsx:614-629 | A broken block turns into blocks worth a tenth of it each |
| Hammer.WithoutTotal | src/App.jsx:613 | Filtering out the one block with a given id removes exactly its value and its count |
| Merge.GlueBlocks | src/App.jsx:635-669 | The glue loop over the source and then each plate builds `Merged(bs, divisor)` |
| Merge.GlueContainer | src/App.jsx:642-665 | One container of the glue: count each type, carry, and append the hundreds, tens and ones in that container |
| Merge.AppendRun | src/App.jsx:656-664 | One push loop appends n blocks of one type in one container |
| Merge.CarryFacts | src/App.jsx:647-653 | Carrying keeps the value, leaves fewer than ten tens and ten ones, and changes nothing when there is nothing to carry |
| Merge.MergeKeepsValues | src/App.jsx:642-665 | The glue keeps the value of the source and of every plate: no value crosses containers |
| Merge.MergeCarries | src/App.jsx:647-653 | After the glue no container holds ten or more ones or ten or more tens |
| Merge.MergeSound | src/App.jsx:639-665 | The glued blocks are droppable and numbered 1, 2, 3, ... so their ids are distinct |
| Merge.MergeKeepsTotal | src/App.jsx:635-669 | On a board where every block is droppable, the glue keeps the total value |
| Merge.MergeIdempotent | src/App.jsx:635-669 | Gluing twice is gluing once |
| Merge.MergeFreshBlocks | src/App.jsx:635-669 | The blocks of a fresh problem are already glued |
| Merge.MergedOverCounts | src/App.jsx:642-665 | For distinct containers, each visited container ends with the carried counts of what it held, and every other container ends empty |
| Merge.ContainersDroppable | src/App.jsx:639 | The glue visits exactly the containers a block may be dropped on |
| Board.GlueAfterSplit | src/App.jsx:604-669 | Gluing after a hammer blow gives the same board as gluing without it |
| Board.CarryAbsorbsBreak | src/App.jsx:647-653 | Carrying turns ten tens back into the broken hundred, and ten ones back into the broken ten |
| Board.SplitCountsIn | src/App.jsx:613-629 | After a hammer blow only the broken block's container changes its counts, by one of the broken type against ten of the smaller type |
| Board.Pushed | src/App.jsx:538 | Saving a snapshot keeps the most recent 19 older snapshots, at most, and puts the new one last; the history never exceeds 20 |
| Board.PushedUndone | src/App.jsx:538 | Below the limit, removing the new snapshot gives back the old history |
| Board.PushedFull | src/App.jsx:538 | At the limit, only the oldest snapshot is dropped |
| Board.PushedSound | src/App.jsx:538 | Saving a sound snapshot keeps every saved snapshot sound |
| Board.MergedStaysSound | src/App.jsx:635-669 | Gluing a sound board gives a sound board |
| Board.Board.constructor | src/App.jsx:480-496 | A new problem starts with the fresh blocks, an empty history and no hammer, and keeps the batch size the field holds |
| Board.Board.SetBatchCount | src/App.jsx:814 | A batch size that is missing, not a number or below 1 becomes 1 |
| Board.Board.ToggleHammer | src/App.jsx:769 | The hammer button flips the hammer |
| Board.Board.DragEnd | src/App.jsx:530-570 | A drop outside any container, or on a non-droppable one, does nothing. Otherwise the blocks are saved and then moved, and the board invariant is kept |
| Board.Board.BlockClick | src/App.jsx:604-633 | Without the hammer a click does nothing. With it, the blocks are saved and the block is broken |
| Board.Board.MergeAll | src/App.jsx:635-669 | The blocks are saved, the board is glued and the hammer is put away |
| Board.Board.Reset | src/App.jsx:671-677 | The blocks are saved, the fresh blocks return and the hammer is put away |
| Board.Board.Undo | src/App.jsx:679-688 | With an empty history nothing happens. Otherwise the last snapshot returns and leaves the history |
| Share.CurrentProblem | src/App.jsx:458-473 | With a usable equation the problem is the typed numbers; otherwise it is 0 ÷ 1 |
| Share.QuotientRemainderFacts | src/App.jsx:475-478 | The shown quotient and remainder are the Euclidean quotient and remainder |
| Share.QuotientMatchesSteps | src/App.jsx:594-595 | The shown quotient and remainder agree with the long-division rows |
| Share.EverySameAndCorrect | src/App.jsx:597-602 | A solved board has less than the divisor in the source, and each plate's value times the divisor plus the source's value is the dividend |
| Share.SolvedHoldsDividend | src/App.jsx:597-602 | A board that reads as solved holds exactly the dividend |
| Share.EqualSharesSolve | src/App.jsx:597-602 | A board that holds the dividend, has equal plates and has less than the divisor in the source reads as solved |
| Share.EqualShareForType | src/App.jsx:709-738 | The place-value check: a type with no blocks is done, and a type whose blocks all lie in the source is not (the full characterisation is `EqualShareSound` with `EqualShareComplete`) |
| Share.EqualShareSound | src/App.jsx:709-738 | A done place value is a fair share. All plates hold the same positive count. Hundreds and tens leave nothing in the source. Ones leave exactly their count mod the divisor |
| Share.EqualShareComplete | src/App.jsx:709-738 | Conversely, equal positive plate counts with nothing left (hundreds, tens) or less than the divisor left (ones) read as done |
| Share.CountPartition | src/App.jsx:713-716 | On a droppable board, the blocks of a type are those in the source plus those on the plates |
| Share.CompletedSteps | src/App.jsx:745-763 | The number of rows revealed is at most 3 and at most the number of digits of the dividend, and 0 when no place value is done |
| Share.CompletedStepsPrefix | src/App.jsx:745-763 | The rows revealed are the leading place values done, from the most significant digit down. At most one row per digit is revealed, and none for four or more digits |
| Share.CompletedStepsMonotone | src/App.jsx:745-763 | Finishing more place values never hides a row |
| Share.CompletedStepsWithinSteps | src/App.jsx:745-763 | For a positive dividend, the rows revealed never outnumber the long-division rows |
| Share.ZeroDividendQuirk | src/App.jsx:745-763 | A dividend of 0 has no rows, yet a done ones place reveals one row |
| Grading.FallbackTableSound | src/page2.js:14-79 | Every fallback problem is right about its own numbers. Its quotient and remainder fit the division and lie within its level's bounds. Problems of the "divides evenly" levels have remainder 0 |
| Grading.ConsistentIsDivision | src/page2.js:54-79 | A consistent entry's answer and remainder are the floor quotient and remainder |
| Grading.FallbackProblem | src/page2.js:232-236 | A random pick returns a copy of one of the level's fallback problems |
| Grading.Grade | src/page2.js:274-288 | No problem or no readable quotient means no grading; otherwise the answer is graded |
| Grading.GradeOutcomes | src/page2.js:290-323 | Each of the four messages appears exactly in its case. The answer is correct exactly when quotient and remainder both match, with a missing remainder counting as 0. The hint appears exactly when the quotient is wrong |
| Grading.FallbackAnswerAccepted | src/page2.js:54-79 | A fallback problem answered with its own quotient and remainder earns the praise |
| Grading.ProblemPage.constructor | src/page2.js:7-8 | The page starts with no level and no problem |
| Grading.ProblemPage.GenerateNewProblem | src/page2.js:151-175 | Without a level nothing happens. Otherwise the feedback resets and the problem is the generated one, or a fallback when there is no key or generation failed |
| Grading.ProblemPage.SelectLevel | src/page2.js:104-110 | Choosing a level makes it current and generates a problem for it |
| Grading.ProblemPage.CheckAnswer | src/page2.js:274-323 | A rejected answer changes nothing. A graded one replaces the feedback and shows at most the one new hint |
| Chat.TrimSlice | src/page3.js:201 | Trimming keeps a middle slice whose cut-off ends are white space; the result is empty or starts and ends with a visible character |
| Chat.TrimStartFacts | src/page3.js:201 | Trimming the start removes exactly the leading white space |
| Chat.TrimEndFacts | src/page3.js:196 | Trimming the end removes exactly the trailing white space |
| Chat.TrimIdempotent | src/page3.js:106-108 | Trimming twice is trimming once |
| Chat.TrimEndSpace | src/page3.js:196 | Trailing white space disappears when the end is trimmed |
| Chat.AppendEntry | src/page3.js:188-194 | One loop step appends a student entry with the student tag, a tutor entry with the tutor tag, and nothing for another role |
| Chat.WriteEntries | src/page3.js:187-194 | The loop writes out every entry of the history in order |
| Chat.FormatChatHistory | src/page3.js:182-197 | An empty chat is written as the placeholder; otherwise the entries are written out and trimmed |
| Chat.EntriesAppend | src/page3.js:187-194 | Writing out a split history writes the first part, then the second |
| Chat.OtherRolesDropped | src/page3.js:188-194 | Entries of other roles add nothing to the transcript |
| Chat.TranscriptEnd | src/page3.js:196 | A non-empty transcript does not end with white space |
| Chat.TranscriptOfOneMessage | src/page3.js:182-197 | A chat of one trimmed student message is written as the student tag and the message |
| Chat.UserContent | src/page3.js:232-235 | The content sent always contains the student's message. It contains the problem when the problem is non-empty and no earlier entry mentions it; otherwise it is exactly the message |
| Chat.ProblemSentOnce | src/page3.js:232-235 | After the problem is sent as context it counts as mentioned, so later messages about it go without it |
| Chat.SentKeepsWellFormed | src/page3.js:237-249 | A student entry, with or without the reply after it, keeps each reply right after a student entry |
| Chat.ChatPage.constructor | src/page3.js:26-28 | The page starts with an empty chat and no conversation |
| Chat.ChatPage.SendMessage | src/page3.js:200-267 | A blank input or a missing key changes nothing. Otherwise the student entry joins the chat, with the problem as context the first time. Any reply joins right after it, and the first reply opens the revision with a copy of the problem |
| Chat.ChatPage.SubmitProblem | src/page3.js:105-180 | Name, original problem and revised problem are required, checked in that order. A confirmed post that goes through submits the trimmed name, the transcript and the trimmed revision, then clears the page; any failure changes nothing |

## Left out

- Rendering, drag-and-drop detection, the cursor, the confetti and the canvas drawing tools are user interface. The model starts from the handler's inputs: the id dragged, the container it lands on, and the block clicked.
- The tutor's estimate feedback and problem generation run on a remote language model, as do the chat replies. Their results are parameters: `generated` and `reply`. Failure is `None`.
- The API key check on every page is a boolean parameter, `apiKeySet`.
- `Math.random` in the fallback draw is the parameter `pick`.
- `confirm` and the form post are the parameters `confirmed` and `posted` of `SubmitProblem`.
- Alerts, status texts, the loading indicator and the welcome message are shown to the student and change no modelled state. They are left out.
- The extraction of a problem from the model's JSON reply, and the level prompt texts, are not part of this model.
- Parsing of the input fields is not modelled. The model takes `Option<nat>` and `Option<int>` for the numbers typed, so a dividend that is negative or not whole, and a divisor that is not whole (such as 2.5, which the source accepts and draws with two plates), are not represented.
- Board.Board.SetBatchCount: takes an integer or nothing. The source also accepts a non-whole batch size such as 2.5, which then moves the dragged block and one companion; that case is not modelled.
- Grading.Grade: the remainder of a problem returned by the language model is an `Option<int>`. A remainder of `null`, which the source compares as never equal, is not modelled.
- The source keeps two boards (before and after the long-division step) and picks one as the current board. Here they are two instances of `Board.Board`. The source shares the hammer and the batch size between its two boards; each instance here has its own.
- Chat.ChatPage.SendMessage: runs to completion. Only the send button is disabled while a reply is pending; a send started with the Enter key during that wait pushes a second student entry before the first reply, which `ChatPage.Valid` rules out. That interleaving is not modelled, so the invariant holds only for sends that do not overlap.
- Grading.ProblemPage.GenerateNewProblem: runs to completion. A level chosen while a problem is being generated can receive a problem of the old level; that interleaving is not modelled.
- Block ids are natural numbers, not the source's strings. The hammer numbers the new blocks above the largest id, while the source appends a suffix to the broken block's id. The glue numbers blocks by position, while the source builds ids from the container and an index. In all three cases the ids are distinct, and only that is used.
- The transcript tags are fixed in the source. Here they are passed to `Entries` as a `Format`, and the transcript uses the source's tags.
