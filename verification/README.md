# Proofs about the core protocols, codecs and folders

A Dafny 4.11 model of the parts of the repository whose correctness is not visible from one function body,
with the properties they are relied on for. `dafny verify dfyconfig.toml` checks everything.

Modules follow the source, one group per piece:

| group | what it models |
|---|---|
| `IdempotencyTable`, `IdempotencyProtocol`, `IdempotencyRetries`, `IdempotencyTiming`, `IdempotencyOverlap`, `IdempotencyAlone` | `idempotent` as statements on one shared row: undisturbed, in any interleaving with stalls, crashes and lost replies, its retry bound, what holds when owners finish in time, when two requests can run at once, and that a request on its own goes through the steps as the handler does |
| `DocumentTree`, `DocumentEdits`, `DocumentInPlace`, `DocumentAgreement`, `DocumentNodes`, `HunkEdits`, `HunkSegments`, `DocumentDiffs` | the TipTap tree and its blocks, the in-place edits on a copy of both, when an edit keeps the two views one document, both said of the list of all nodes, diff hunks as text replacements and the parts they are made of, and a diff applied to a document |
| `ShapeExpander`, `ShapeGrammar`, `ShapeRounds` | the regex-shape scanner, the small grammar it expands, and one round of it on any text |
| `FoldSyntax`, `FoldText`, `FoldTextLaws`, `Fold`, `Folder` | the constant folder, as functions and as it runs in place |
| `FoldMeaning`, `FoldComplete`, `FoldExample` | the list of strings an expression denotes, or its refusal, and that the folder answers exactly that |
| `FoldSemantics`, `FoldTidy`, `FoldSound` | the values an expression can take in the worlds a program can be in, and why what it folds to covers them |
| `FoldReads`, `FoldWorlds`, `FoldExact`, `FoldPitfalls` | when what it folds to is exact, and when it is wrong |
| `Arithmetic`, `Calendar`, `Timestamp`, `TimestampFormat`, `TimestampText`, `TimeField`, `TimeFieldText` | Gregorian arithmetic, timestamps with offsets, date validation by roll-over, and both as the texts that are read and written |
| `Base64`, `Splitting`, `Cursor`, `Paging`, `PageRequest` | cursors of core-api and the gateway, keyset pages and a client's walk |
| `PendingSignup` | the signed sign-up token |
| `SlidingWindow`, `WindowKeys`, `WindowCounts`, `RateBuckets`, `FallbackMinutes` | the rate limiters |
| `Migrations`, `MigrationsAlone` | the migration runner, any number of them and one on its own |

Each SQL statement is one atomic step and a transaction is all or nothing. Route handlers, the JSON codec, HMAC, UUID
parsing, URL validation, and JavaScript's `new Date(text)` for texts that no pattern matches are parameters. Strings are
sequences of Dafny characters, each standing for one UTF-16 code unit; a Dafny character is a Unicode scalar value, so a
lone surrogate is not representable. Times are exact numbers.

## Where the code does less than its documentation suggests

The model follows the code; each point is a lemma.

- A pure removal becomes an edit whose new text is empty, so the lines around it keep an empty line between them
  (`HunkEdits.BareRemovalLeavesALine`; `HunkEdits.EditsGiveTheNewSide` says exactly when the new side comes out).
- An edit whose old text occurs in two blocks rewrites both blocks and one text node (`DocumentAgreement.TwinParagraphsPart`);
  `DocumentAgreement.EditKeepsValidIff` is the exact condition for one edit.
- `formatJsonTimestamp` does not pad years, and reads the years 0 to 99 as 1900 to 1999
  (`TimestampFormat.FormatKeepsTheInstant`, `TimestampFormat.FirstCenturyMoves`); `parseTimeField` rejects those years.
- A `?` after a group is always read as making the group optional (`ShapeGrammar.MarkAfterGroupIsNoLiteral`).
- The constant folder takes a module constant for a parameter of the same name: for one of a function no call reaches
  (`FoldPitfalls.UncalledParameter`, with a program in `FoldPitfalls.ShadowedConstant`), and for one that some call leaves
  out or passes what the folder never follows (`FoldPitfalls.UnfollowedArgument`). It sees loop variables inside other
  definitions (`FoldPitfalls.LoopVariableIsCaptured`), and takes a computed replacement count as "all"
  (`FoldPitfalls.ComputedCountIsTakenAsAll`); each lemma gives the exact condition. It reads a name with two values
  anew at each occurrence, so `d + d` folds to mixed sums no run makes (`FoldPitfalls.TwiceReadIsTooMany`), and it gives a
  parameter the arguments of every call by its function's name, whichever function of that name the call reaches
  (`FoldPitfalls.SharedNameIsTooMany`); where no such name is read twice and every call by the name of a function whose
  parameter is read reaches that function the answer is exact (`FoldExact.FoldIsExact`).
- An idempotent request that is still running after five minutes loses its key to the next one, and both run
  (`IdempotencyTiming.LateOwnerRunsTwice`); `IdempotencyOverlap.OverlapsIffSomeoneIsLate` says exactly when.
- A fixed window admits up to twice its limit in 60 seconds that are not one minute of the clock
  (`RateBuckets.BoundedIffAligned`, `RateBuckets.MinuteBoundaryBurst`), a worker clock slower than the two minutes a row is
  kept restarts a swept bucket (`RateBuckets.SlowClockStartsAgain`), an isolate's fallback keeps its bound exactly when no
  minute comes back after another (`FallbackMinutes.BoundIffGrouped`), and the sliding window's bound holds across evictions
  exactly when the keys in use fit (`WindowKeys.BoundedIffKeysFit`).
- The gateway reads a cursor with a sort, keeping the sort inside the id (`Cursor.GatewayKeepsTheSort`).

## Model

| member | source | states |
|---|---|---|
| IdempotencyTable.Table.Idempotent | services/core-api/src/handler.ts:262-353 | Run undisturbed, the handler with its restart changes the row, answers and dispatches as the specification `Alone` says; the next four rows say what that is, status by status |
| IdempotencyTable.DispatchesIff | services/core-api/src/handler.ts:278-302 | The route runs if and only if there is no row or one that is pending for more than 300000 ms |
| IdempotencyTable.SuccessIsKept | services/core-api/src/handler.ts:333-352 | After a dispatch that ends in 200 to 299 the answer and the row hold its status and its bytes, and no bytes for 204 and 205 |
| IdempotencyTable.FailureIsPassedOn | services/core-api/src/handler.ts:321-331 | Any other status and a throw is answered as it came, and no row is left |
| IdempotencyTable.LoserIsAnswered | services/core-api/src/handler.ts:290-319 | Without a dispatch the row stays; a pending row or another body is a conflict, and the same body gets the stored status and bytes, with no bytes for 204, 205 and 304 |
| IdempotencyTable.RetryReplays | services/core-api/src/handler.ts:290-319 | After a 2xx a second call with the same body replays that status and body without dispatching, and one with another body conflicts; the row stays |
| IdempotencyTable.FailureFreesTheKey | services/core-api/src/handler.ts:321-331 | After a throw or a non-2xx the next call with the key dispatches again |
| IdempotencyProtocol.InvStep | services/core-api/src/handler.ts:278-352 | Every step of any number of requests, with crashes, stalls and lost replies, keeps: the row is its owner's, replays equal the row, and a row with a response never changes |
| IdempotencyProtocol.StoredForEver | services/core-api/src/handler.ts:278-352 | Once stored, a response stays in the row for the rest of every run, with no assumption on time |
| IdempotencyProtocol.ReplaysAgree | services/core-api/src/handler.ts:303-352 | In every run all replays carry the stored status and body, which the row's owner answered too if it lived to answer; only equal body hashes are replayed |
| IdempotencyProtocol.OnlyOwnRowIsWritten | services/core-api/src/handler.ts:281-348 | A statement that changes the row inserts or closes the requester's own row or removes a pending row it read as stale, so a taken-over finisher cannot touch its successor's |
| IdempotencyAlone.RunsAlone | services/core-api/src/handler.ts:278-352 | From any state with a free, pending or stored row some run of a request's own steps leaves the row, gives the answer and dispatches as the undisturbed handler does, and changes no other request |
| IdempotencyRetries.RetriesAreBounded | services/core-api/src/handler.ts:290-302 | A request takes no id over twice, and restarts at most once for each other request that arrived more than PENDING_MS before it |
| IdempotencyTiming.OneDispatchAtATime | services/core-api/src/handler.ts:297-353 | If owners are through within PENDING_MS of arrival, no two dispatches run at once and at most one ends in a 2xx |
| IdempotencyTiming.NoDispatchAfterSuccess | services/core-api/src/handler.ts:297-353 | Under the same timing no dispatch starts after one has ended in a 2xx |
| IdempotencyOverlap.OverlapIffLate | services/core-api/src/handler.ts:297-302 | While a request runs under its row and all others are arriving or through, a second dispatch can start beside it if and only if one of the arriving requests came more than PENDING_MS after it |
| IdempotencyOverlap.OverlapsIffSomeoneIsLate | services/core-api/src/handler.ts:278-352 | From an empty table, with no assumption on how long anything takes: some run has two dispatches going on at once if and only if one request arrives more than PENDING_MS after another |
| IdempotencyTiming.LateOwnerRunsTwice | services/core-api/src/handler.ts:297-302 | From the start: a run in which two dispatches overlap and both succeed |
| DocumentTree.ValidateDocumentContent | services/core-api/src/document-content.ts:64-79 | No error exactly when the tree is well formed, block ids are distinct, and blocks and block nodes are the same map from ids to texts |
| DocumentTree.Walker.Walk | services/core-api/src/document-content.ts:44-62 | `walk` fills its map and its list with the block nodes, parents first, and throws exactly on a malformed node or a repeated id |
| DocumentTree.ValidCounts | services/core-api/src/document-content.ts:64-79 | A valid document has as many blocks as block nodes and both give one id-to-text map |
| DocumentNodes.ValidIsAboutAllNodes | services/core-api/src/document-content.ts:42-79 | Said of the list of all nodes: valid is a doc root, seven node types, only link marks with a good href, an id on every paragraph, heading and list item, no id twice on either side, and blocks that are those nodes with the texts of all nodes under them joined |
| DocumentInPlace.TreeNode.ReplaceInNode | services/core-api/src/document-content.ts:137-145 | The recursion with its shared flag changes, in place, the first occurrence in the first text node that holds the old text, and sets the flag exactly when there is one |
| DocumentInPlace.ReplacedCopy | services/core-api/src/document-content.ts:148-158 | The copy of tree and blocks after the loop is what the edits before the first one that finds no text make of them; `applied` is true exactly when there is an edit and all find their text |
| DocumentEdits.StopsAtTheFirst | services/core-api/src/document-content.ts:148-158 | All edits are made if each finds its text in the tree the ones before it leave; else those before the first that does not, and no more |
| DocumentNodes.AppliedIff | services/core-api/src/document-content.ts:137-153 | An edit list is applied if and only if at its turn each edit has a text node whose text contains its old text |
| DocumentNodes.EditTouchesOneText | services/core-api/src/document-content.ts:137-145 | One edit replaces the first occurrence in the first text node, in document order, that contains the old text, and changes nothing else of the tree |
| DocumentAgreement.TextFollows | services/core-api/src/document-content.ts:42-42 | The document's text changes at the edited text node's place and nowhere else |
| DocumentAgreement.EntriesFollow | services/core-api/src/document-content.ts:44-62 | The texts of all block nodes change as the blocks' do exactly when the edit is aligned |
| DocumentAgreement.EditKeepsValidIff | services/core-api/src/document-content.ts:137-158 | One edit of a valid document leaves it valid if and only if it changes nothing or is aligned: first occurrence in every block around it, in no other block |
| DocumentAgreement.OnceIsAligned | services/core-api/src/document-content.ts:137-158 | A non-empty old text that occurs once in the document's text and inside a text node makes an aligned edit, whatever the nesting of blocks |
| DocumentAgreement.UniqueEditsKeepValid | services/core-api/src/document-content.ts:148-158 | A list of edits each unique at its turn is applied in full and leaves a valid document with the same block ids |
| DocumentAgreement.TwinParagraphsPart | services/core-api/src/document-content.ts:153-155 | Two paragraphs with one text part ways under an edit |
| DocumentDiffs.TextIsApplied | services/core-api/src/document-content.ts:137-158 | Under edits each unique at its turn the text of the edited tree is the tree's text with the edits made in it one after the other, and each old text is found there once |
| DocumentDiffs.DiffGivesTheNewSide | services/core-api/src/document-content.ts:105-158 | A diff whose old side is the text of a valid document, each old text found once and inside one text node, is applied in full and leaves a valid document with the same block ids whose text is the padded new side, and the new side itself if and only if every run of removals is followed by an added line or the diff only removes, in one run |
| HunkEdits.HunkEdits | services/core-api/src/document-content.ts:105-135 | The loop with anchor, removed and added lines gives the edits of the recursive specification, or throws where it does |
| HunkSegments.EditsAreSaid | services/core-api/src/document-content.ts:105-135 | For kept lines and changes between them, in any number: a change with removed lines becomes these lines and the added ones joined by line breaks, one without them goes behind the kept line last seen, in order, and nothing else; without such a line it throws |
| HunkSegments.EveryDiffIsParted | services/core-api/src/document-content.ts:105-135 | Every hunk list is such a list of kept lines and changes |
| HunkEdits.EditsGiveThePaddedSide | services/core-api/src/document-content.ts:105-156 | Applied in order as first-occurrence replacements, each old text unique at its turn, the edits turn the joined old side into the new side with an empty line for each bare removal |
| HunkEdits.EditsGiveTheNewSide | services/core-api/src/document-content.ts:105-156 | That is the joined new side if and only if every run of removals is followed by an added line, or the diff only removes, in one run |
| HunkEdits.BareRemovalLeavesALine | services/core-api/src/document-content.ts:110-135 | Removing the last of two lines leaves the first with a line break, which is not the new side |
| HunkEdits.ThrowsOnALeadingAdd | services/core-api/src/document-content.ts:110-115 | `hunkEdits` throws exactly when the first hunk is an added line |
| ShapeExpander.Expand | packages/contracts/drift.ts:60-86 | The paren scan, the split at top-level bars and the recursion compute `Expansion` and end on every input, balanced or not, because the parentheses get fewer |
| ShapeExpander.AllFewerParens | packages/contracts/drift.ts:60-86 | Every string the recursion is called on has fewer opening parentheses than the one it came from |
| ShapeGrammar.ExpandDenotes | packages/contracts/drift.ts:60-86 | On the text of any pattern of literals, nested groups, alternatives and optional groups, the result is the list of strings the pattern denotes, in order |
| ShapeGrammar.ShapesHaveNoParens | packages/contracts/drift.ts:60-62 | No shape holds an opening parenthesis, for every input |
| ShapeGrammar.MarkAfterGroupIsNoLiteral | packages/contracts/drift.ts:69-69 | Why a literal `?` after a group is outside the grammar |
| ShapeRounds.OneRound | packages/contracts/drift.ts:60-86 | For every text with an opening parenthesis, balanced or not: the first group ends where the balance returns to zero or at the end of the text, is cut at exactly its bars of balance zero, and the result is the expansions of all choices put between what is before and behind it, in order |
| ShapeRounds.NoGroup | packages/contracts/drift.ts:60-62 | A text without an opening parenthesis is its only shape |
| Fold.Fold | scripts/sql-check/extract-py.py:142-206 | For any program with acyclic imports `fold` ends, leaves no new binding in `BOUND`, and never answers with an empty list |
| FoldComplete.FoldIsItsMeaning | scripts/sql-check/extract-py.py:92-206 | For every expression in which no node is met again on its way and no loop variable is set again inside its own loop: the answer is exactly the list the expression denotes, in order, and none exactly where it is refused (another shape, a part that is refused, several texts where one is needed, or more than 32) |
| FoldMeaning.PlainIsClear | scripts/sql-check/extract-py.py:112-206 | Every expression without names but its loop variables is of that kind if no node stands within itself and no loop variable is set again inside its own loop |
| FoldMeaning.LocalIsOnly | scripts/sql-check/extract-py.py:50-63 | The local that is followed is the only assignment of its name, with nothing else assigning to it |
| FoldMeaning.KeptIsConstant | scripts/sql-check/extract-py.py:34-47 | The constant that is followed is the last assignment of its name in the module, or its first import if there is none |
| FoldMeaning.ArgIsPassed | scripts/sql-check/extract-py.py:92-104 | The argument taken is the first keyword of the parameter's name, else the one at its place, a receiver not counted |
| FoldTextLaws.ReplacesTheFirst | scripts/sql-check/extract-py.py:188-188 | `replace` replaces the first occurrence and goes on behind it, once less |
| FoldTextLaws.ReplacesNothing | scripts/sql-check/extract-py.py:188-188 | Without an occurrence, or with count zero, nothing changes |
| FoldTextLaws.EmptyIsEverywhere | scripts/sql-check/extract-py.py:188-188 | The empty text is replaced before each character and at the end, or before the first n |
| FoldTextLaws.JoinLaws | scripts/sql-check/extract-py.py:190-192 | `join` puts the separator between two runs and nowhere else |
| FoldExample.TemplateFolds | scripts/sql-check/extract-py.py:161-175 | `f"SELECT {COLS} FROM {x}"` over a module constant and a parameter passed once folds to the one text it is, for every constant and argument |
| FoldExample.TemplateTakes | scripts/sql-check/extract-py.py:92-206 | And that text is all it takes, at every moment of every run |
| Folder.LocalsOf | scripts/sql-check/extract-py.py:50-63 | The dictionary holds exactly the names assigned once, with that assignment |
| Folder.ModuleConstants | scripts/sql-check/extract-py.py:34-47 | The dictionary holds the last assignment of a name, else its first import |
| Folder.Folder.Fold | scripts/sql-check/extract-py.py:142-206 | The recursion that sets and pops `BOUND` in place returns and leaves what the function `Fold` says |
| Folder.Folder.FoldEach | scripts/sql-check/extract-py.py:125-138 | The comprehension's loop binds, folds and unbinds its variable once per value |
| Folder.Folder.ParamValues | scripts/sql-check/extract-py.py:92-109 | The loop over call sites gathers the argument's values without repeats, or gives up |
| FoldSound.FoldCoversEveryValue | scripts/sql-check/extract-py.py:92-206 | In every world the program can be in, names having one value or, as in loops, several, under any branch choices and any call sites, and whatever the comprehensions around the expression bind, an expression that folds is one of the strings it folds to; asked is only that the names met on the way mean to the folder what they mean to the program |
| FoldSound.CallsSound | scripts/sql-check/extract-py.py:92-109 | When a parameter folds, every call has an argument for it, whose value is covered |
| FoldSound.EachSound | scripts/sql-check/extract-py.py:121-138 | A folded comprehension is, string by string, the list the program builds |
| FoldExact.FoldIsExact | scripts/sql-check/extract-py.py:92-206 | Where no name with several values is read twice and every call by the name of a function whose parameter is read reaches that function, the strings an expression folds to are exactly its values at the moments of a run, each binding and each activation's call chosen once |
| FoldPitfalls.TwiceReadIsTooMany | scripts/sql-check/extract-py.py:154-160 | With `d` one of two texts `d + d` folds to four sums, and takes exactly the two plain ones, so the answer is exact if and only if the texts are equal |
| FoldPitfalls.SharedNameIsTooMany | scripts/sql-check/extract-py.py:82-109 | With two functions of one name, one called with `a` and the other with `b`, the parameter of the first folds to both and only takes `a`; the answer is exact if and only if they are equal |
| FoldText.CountMattersIff | scripts/sql-check/extract-py.py:184-189 | Every replacement count gives the same text if and only if there is nothing to replace or it is replaced by itself |
| FoldPitfalls.UncalledParameter | scripts/sql-check/extract-py.py:200-205 | For a parameter of a function no call reaches the answer is right if and only if there is none: calls of other functions of the name give no list, and the module, imports followed, has no constant of the parameter's name or one whose expression does not fold |
| FoldPitfalls.UnfollowedArgument | scripts/sql-check/extract-py.py:92-205 | For a parameter that a call leaves out, or passes what the folder never follows, the answer is right if and only if there is no such constant |
| FoldPitfalls.ShadowedConstant | scripts/sql-check/extract-py.py:200-205 | A module constant and a handler's parameter of its name: folded to the constant, which is wrong |
| FoldPitfalls.LoopVariableIsCaptured | scripts/sql-check/extract-py.py:112-136 | For `d = y` joined over a loop variable `c`, whatever the names and texts: the answer is right if and only if `c` is not `y` or has its value |
| FoldPitfalls.ComputedCountIsTakenAsAll | scripts/sql-check/extract-py.py:184-189 | A replacement whose count is no constant is folded as "all"; that covers every count if and only if there is nothing to replace or it is replaced by itself |
| FoldPitfalls.ComputedCountOfConstants | scripts/sql-check/extract-py.py:184-189 | On constant texts the answer is right in every world if and only if that holds |
| Calendar.ClosedFormCounts | services/core-api/src/time.ts:39-43 | The closed form for the first day of a year is the sum of the year lengths before it |
| Calendar.MonthTableCounts | services/core-api/src/time.ts:39-43 | The table for the first day of a month is the sum of the month lengths before it, and twelve months make the year |
| Calendar.DayIsItsDate | services/core-api/src/time.ts:47-58 | Every day number has a real Gregorian date that leads back to it |
| Calendar.MonthsAndDaysRunOver | services/core-api/src/time.ts:39-43 | Months and days past their range are years and days more, however far |
| Calendar.KnownDays | services/core-api/src/time.ts:39-43 | 29 February is a day of 2000 and is 1 March in 1900 |
| Calendar.RollOverIsTheCalendar | services/core-api/src/body.ts:67-69 | Year, month and day survive the roll-over if and only if they are a Gregorian date |
| Timestamp.FieldsNameTheSecond | services/core-api/src/time.ts:47-58 | The fields taken from an epoch time are in range and name that second again |
| TimestampFormat.FormatKeepsTheInstant | services/core-api/src/time.ts:17-68 | Any timestamp with any offset is written as a timestamp of the same instant, to the microsecond, if and only if its UTC year has four digits |
| TimestampText.WrittenIsMatched | services/core-api/src/time.ts:22-41 | Every written timestamp, with either separator, any fraction and all five forms of a zone, is read field by field |
| TimestampText.MatchedWasWritten | services/core-api/src/time.ts:22-41 | The pattern takes no other text |
| TimestampText.FormatWritesTheMoment | services/core-api/src/time.ts:17-68 | With any blanks around it, a written timestamp comes out as one in UTC, with a real date, a time of day and six digits of a fraction or none, of the moment its fields name less the minutes its zone is ahead, if and only if that moment's UTC year has four digits |
| TimestampText.OtherTextsAreDates | services/core-api/src/time.ts:25-31 | A text the pattern does not take is written as a canonical timestamp of the millisecond `new Date` finds in it, and refused where it finds none |
| TimestampText.NoonInTokyo | services/core-api/src/time.ts:34-41 | 2026-03-01T12:00:00+09:00 is written as 2026-03-01T03:00:00Z |
| TimestampFormat.FormatIsIdempotent | services/core-api/src/time.ts:64-68 | What is written is a timestamp again if and only if the second the text was read as has a four-digit UTC year, and then formatting it once more changes nothing |
| TimestampFormat.FirstCenturyMoves | services/core-api/src/time.ts:39-43 | A timestamp with a year from 0 to 99 is always written as a timestamp of the same fields 1900 years later |
| TimeField.AcceptedIsTheCalendar | services/core-api/src/body.ts:66-70 | The `Date.UTC` comparison accepts exactly real dates from the year 100 on with a real time of day |
| TimeField.RebuiltMatches | services/core-api/src/body.ts:71-71 | The rebuilt text always takes the pattern path of `parseUtc` |
| TimeField.TimeFieldIsTheCalendar | services/core-api/src/body.ts:60-72 | `parseTimeField` answers exactly for those inputs, with the same instant if and only if its UTC year has four digits |
| TimeFieldText.MatchedFieldWasWritten | services/core-api/src/body.ts:57-64 | The expression takes only a date with perhaps a clock, to the minute, second or fraction, and perhaps a zone |
| TimeFieldText.FieldNamesTheMoment | services/core-api/src/body.ts:57-72 | Each such text is taken if and only if its date is real, of the year 100 or later, and its clock a time of day; what is written is a canonical timestamp of the moment it names, what is missing being zero and UTC, if and only if that moment's UTC year has four digits |
| Base64.UrlRoundTrip | services/core-api/src/time.ts:70-78 | Decoding gives back every byte that was encoded (section 5 of RFC 4648) |
| Base64.RefillRestores | services/core-api/src/time.ts:77-78 | The padding removed on encode is restored exactly from the length modulo 4 |
| Base64.UrlAlphabet | services/core-api/src/time.ts:72-72 | Only letters, digits, `-` and `_` are written |
| Base64.ThreeBytesAreFourDigits | services/core-api/src/time.ts:70-73 | Three bytes are one number of 24 bits and the letters its digits to base 64 |
| Base64.FewerBytesAreFilled | services/core-api/src/time.ts:70-73 | One and two bytes at the end are filled up with zero bits, and letters that stand for those alone are left out |
| Base64.Vectors | services/core-api/src/time.ts:70-73 | Vectors of section 10 of RFC 4648, and `-` and `_` |
| Cursor.CursorRoundTrip | services/core-api/src/time.ts:70-89 | Decoding an encoded cursor gives the formatted timestamp, the id and the sort if and only if the id is non-empty without a bar, the sort is absent, relevance or latest, and the timestamp can be parsed |
| Cursor.CursorIsWritten | services/core-api/src/time.ts:70-73 | A cursor is base64url of timestamp, bar, id and, for a sort, bar and sort; it can be written if and only if the timestamp can and no character is past the 255th |
| Cursor.CursorOfFourDigitYear | services/core-api/src/time.ts:70-89 | For creation times whose UTC year has four digits the id and the sort alone decide |
| Cursor.ReencodesTheSame | services/core-api/src/time.ts:70-73 | For creation times read as a four-digit UTC year, encoding what was decoded gives the same cursor |
| Cursor.DecodersAgree | services/gateway/src/time.ts:83-97 | On every text the gateway and core-api read the same timestamp and id, for cursors without a sort and ids without a bar |
| Cursor.GatewayKeepsTheSort | services/gateway/src/time.ts:83-97 | A cursor with a sort is read by the gateway with the sort in the id |
| PageRequest.LimitIsBounded | services/core-api/src/page.ts:10-16 | A page holds between 1 and 100 rows, whatever is asked for |
| PageRequest.LimitIsAsAsked | services/core-api/src/page.ts:10-16 | 50 rows if no number is asked for, else the decimal number asked for, at most 100; a limit is refused if and only if it is no positive number in decimal |
| PageRequest.NextCursorLeadsBack | services/core-api/src/page.ts:10-45 | The cursor of a page's last row, sent back, names the same instant, to the microsecond, and id |
| Paging.PageResult | services/core-api/src/page.ts:30-46 | The page is a prefix of the rows, cut to the limit; more is promised exactly when a row is left over, and then the cursor is that of the page's last row |
| Paging.SelectTakesTheNewest | services/core-api/src/page.ts:79-87 | The query gives the newest rows behind the cursor in strict order and leaves out only older ones |
| Paging.NewestFirstIs | services/core-api/src/page.ts:79-87 | The order is by falling creation time and by falling id where that is the same; a cursor lets by what comes after it in that order |
| Paging.PageCovers | services/core-api/src/page.ts:79-88 | A page holds exactly the rows between its two cursors, is full when more follow, and says so exactly when one does |
| Paging.WalkIsNewestFirst | services/core-api/src/page.ts:73-91 | Whatever is inserted and deleted between fetches, a walk's rows come in strictly descending order, so none twice |
| Paging.WalkReturns | services/core-api/src/page.ts:73-91 | A finished walk returns a row if and only if it was in the table at the fetch that passed its place |
| Paging.StayingRowsAreReturned | services/core-api/src/page.ts:73-91 | A row that is there all along is returned |
| Paging.AllButTheLastAreFull | services/core-api/src/page.ts:36-45 | Every page with more behind it has exactly `limit` rows, and only the last has none behind it |
| Paging.StillTable | services/core-api/src/page.ts:73-91 | On a table that stays the same the pages joined are the whole list |
| Paging.WalkEnds | services/core-api/src/page.ts:73-91 | A walk over rows from a finite stock ends within as many fetches as the stock fills pages |
| PendingSignup.ToB64Url | services/core-api/src/auth/pending-signup.ts:15-19 | The loop and the dropping of every `=` write the same text as dropping trailing ones |
| PendingSignup.FromB64Url | services/core-api/src/auth/pending-signup.ts:21-33 | The array filled is the decoded bytes, and null exactly where the shape or `atob` refuses |
| PendingSignup.Same | services/core-api/src/auth/pending-signup.ts:48-53 | The xor-and-or accumulator is zero exactly for equal arrays |
| PendingSignup.ReadPendingSignup | services/core-api/src/auth/pending-signup.ts:72-95 | The checks on arrays, in their order, answer as the specification on values |
| PendingSignup.SecretIsTheSetting | services/core-api/src/auth/pending-signup.ts:35-39 | Not configured exactly where the setting is missing or blank; else the secret is what stands in it between blanks |
| PendingSignup.SignedTokensAreRead | services/core-api/src/auth/pending-signup.ts:55-95 | For every input and every time: an empty provider or subject or the provider "phone" is refused, anything else is read back as signed before exp*1000 and has expired from then on |
| PendingSignup.OnlyTheSecretReads | services/core-api/src/auth/pending-signup.ts:72-79 | A token is read under a secret if and only if that secret gives its payload the same MAC |
| PendingSignup.ReadMeansSigned | services/core-api/src/auth/pending-signup.ts:72-95 | What is read came with the MAC of its payload, holds a usable provider and subject, and is not expired |
| PendingSignup.Lifetime | services/core-api/src/auth/pending-signup.ts:65-65 | A token lives 899001 to 900000 ms |
| SlidingWindow.Limiter.Allow | services/ai/src/app/ratelimit.py:61-72 | Pop, prune, append, reinsert and evict in place are one step of the specification |
| SlidingWindow.DecidesLikeTheFullLog | services/ai/src/app/ratelimit.py:61-72 | For non-decreasing times the limiter decides as one that keeps every hit of a key since it last entered |
| WindowCounts.DecidesByCounting | services/ai/src/app/ratelimit.py:61-72 | A call is let through if and only if fewer than its limit were let through for its key in the window before it, those before the key's last eviction not counted |
| SlidingWindow.EvictsLeastRecentlyUsed | services/ai/src/app/ratelimit.py:69-71 | There are at most `max_keys` keys, and the one evicted is the least recently used, never the one served |
| SlidingWindow.AtMostLimitPerWindow | services/ai/src/app/ratelimit.py:61-72 | While a key stays resident, any (t - window, t] admits at most `limit` |
| WindowCounts.AtMostLimitWhileResident | services/ai/src/app/ratelimit.py:61-72 | The same as a number of calls in the log |
| WindowKeys.BoundedIffKeysFit | services/ai/src/app/ratelimit.py:61-72 | The bound on all admissions of a key, evictions included, holds for every use of a set of keys if and only if there are at most `max_keys` of them |
| WindowCounts.AtMostLimitIffKeysFit | services/ai/src/app/ratelimit.py:61-72 | The same as a number of calls in the log, evictions included |
| SlidingWindow.EvictionForgets | services/ai/src/app/ratelimit.py:70-71 | Three calls that show an evicted key admitted again within its window |
| RateBuckets.Isolate.MemoryAllow | services/core-api/src/ratelimit.ts:21-30 | A request is let through exactly when its bucket has counted fewer than the limit in the current minute, and is counted; other buckets keep their count within the minute and lose it on a new one |
| RateBuckets.Counters.Consume | services/ai/src/app/ratelimit.py:32-38 | No row comes back exactly when the bucket is full, and then nothing changes; otherwise its count goes up by one and is returned, and the other buckets keep their rows |
| RateBuckets.WorkersShareTheBucket | services/ai/src/app/ratelimit.py:101-103 | A bucket's window is the minute of the instant, and both workers take the same one if and only if the instant is from 1970 on or not in the last second, exclusive, of a minute before |
| RateBuckets.AtMostLimitPerBucket | services/core-api/src/ratelimit.ts:3-43 | In any run with sweeps, failures and lost replies a bucket admits at most `limit` through the database and at most `limit` through each isolate, as long as the database clock does not go back or pass the two minutes a row is kept and no isolate falls back again in a minute it has left and let something through in |
| FallbackMinutes.BoundIffGrouped | services/core-api/src/ratelimit.ts:17-30 | An isolate's fallback lets at most the limit through in every bucket, whatever the names and limits, if and only if no minute comes back after another |
| RateBuckets.HitsAreAdmissions | services/ai/src/app/ratelimit.py:107-111 | While no reply is lost a row's hits are the requests it let through |
| RateBuckets.AtMostTwicePerMinute | services/core-api/src/ratelimit.ts:34-39 | Any 60 seconds admit at most twice the limit for one key through the database |
| RateBuckets.BoundedIffAligned | services/core-api/src/ratelimit.ts:34-39 | Every run admits at most the limit in the 60 seconds from a time if and only if they are one minute of the clock |
| RateBuckets.MinuteBoundaryBurst | services/core-api/src/ratelimit.ts:34-39 | For any other start and any limit twice the limit is reached |
| RateBuckets.SlowClockStartsAgain | services/ai/src/app/ratelimit.py:124-131 | A sweep drops a full bucket's row, and lets it start again, exactly when the database clock is past two minutes after the bucket's minute began |
| RateBuckets.SweepSparesTheMinute | services/ai/src/app/ratelimit.py:124-131 | A sweep between two requests of one minute leaves its row |
| Migrations.LogIsTheTable | services/ai/src/app/db.py:136-162 | In every run of several runners with crashes anywhere the table is the set of committed scripts, none is applied twice, each runner goes in ascending order, and a normal return means all its files are applied |
| Migrations.OnlyTheHolderApplies | services/ai/src/app/db.py:137-159 | Only the lock's holder applies, only what no one has applied, and no two hold the lock |
| Migrations.Database.RunMigrations | services/ai/src/app/db.py:136-162 | One runner's loop returns normally if and only if no missing file's script raises; then it has applied exactly the missing files in order, and otherwise exactly those before the first missing one that raises |
| MigrationsAlone.RunsThrough | services/ai/src/app/db.py:136-162 | While the lock is free some run of a runner's own steps returns normally, with exactly its missing files committed, in order, and the lock free again |
| Migrations.LessIsLexicographic | services/ai/src/app/db.py:140-141 | The order of the names is by the first character in which they differ |
| Migrations.EveryDirectoryIsSorted | services/ai/src/app/db.py:140-141 | Every set of names has a list in that order |
| Migrations.NothingLeft | services/ai/src/app/db.py:145-150 | A run finds nothing to do if and only if all its files are in the table |

## Left out

- IdempotencyProtocol.ReplaysAgree: covers status and body; stored headers and the content type put in their place are not modelled.
- IdempotencyTiming.OneDispatchAtATime: assumes the statement that stores a success is neither lost nor failed; without that `IdempotencyProtocol` still holds.
- Paging.WalkReturns: a row is its key, so a row whose `created_at` changes counts as another row; `withTotal` is not modelled.
- FoldSound.FoldCoversEveryValue: asks `FoldTidy.Tidy` of what is followed: what is followed is bound once, the function of a followed parameter is reached by some call of its name, a loop variable is not taken for another name, and a name with no value to follow is not named like a constant of the module; nothing is asked of what is not followed.
- FoldSound.FoldCoversEveryValue: functions are called by their own name with positional and keyword arguments; nested functions, starred arguments, aliases of functions and class scopes are not modelled.
- FoldExact.FoldIsExact: is one-sided in its hypothesis: that no name with several values is read twice and that the calls by a name reach the function read is sufficient, not necessary.
- FoldComplete.FoldIsItsMeaning: says nothing of expressions in which a node is met again on its way, which the folder refuses, or a loop variable is set again inside its own loop, which it then forgets.
- Folder.Folder.Fold: a fabricated import constant has no identity of its own; cyclic imports, on which the recursion does not end, are excluded by `Sourced`.
- `literals`, the site and fragment inventory, and the printing of extract-py.py.
- SlidingWindow.Limiter.Allow: times are reals, so floating-point rounding of `now - window_s` is not modelled.
- RateBuckets.AtMostLimitPerBucket: the Python worker's fallback on a failed query is `SlidingWindow` with the bucket as its key and is not composed with the shared table.
- Migrations.LogIsTheTable: a script that commits by itself is outside the all-or-nothing transaction; directory listing and `sorted` give each runner a sorted list of distinct names.
- PendingSignup.SignedTokensAreRead: JSON and HMAC are parameters, with the codec lossless on the signed claims and neither payload nor MAC empty.
- `shapesOfRegex` and the other rewriting of regex sources before `expand`; `codePointSlice` and `computeQuality`; `strictObject`; `ts`, `revisionUpdate`, `parseUuid`: easy or declarative members.
- The texts of thrown errors beyond their kind, and values of the wrong JavaScript type where the code expects nodes, blocks or hunks.
- A text node without `text` under an edit with an empty old text: the code puts `undefined` behind the new text, the model has no missing `text`.
- `Date` objects as the input of `formatJsonTimestamp` (services/core-api/src/time.ts:18-20): only texts are modelled.
- `new Date(text)` for timestamps that the pattern does not match is a parameter, so nothing is said of which millisecond it finds.
