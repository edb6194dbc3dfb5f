# The verified core of cases

`cases` keeps a list of cases an agent and a human pass back and forth. A case
is the fold of its stored events, and everything else (which form a page may
still send, which id names it, when its worker's locks go) is computed from
those. This project models the parts of the program where that computation is
hard to get right, and proves what they promise for every input, every run or
every interleaving.

Run `dafny verify dfyconfig.toml` here to check all of it.

| part | modules |
|---|---|
| the case: its rules, its state machine, its writer and its replay | `Names`, `Records`, `Rules`, `Cases`, `CaseMachine`, `WriterLaws`, `CaseLaws`, `RuleLaws`, `HistoryLaws`, `RevisionLaws`, `RepeatLaws` |
| whether a form drawn earlier may still be sent | `Freshness`, `FreshnessLaws` |
| the store's contract, the store in memory, and the poller | `Stores`, `Poll`, `StoreRuns` |
| RFC 3339 times | `Calendar`, `Times`, `TimeText`, `TimeLaws`, `Decimals` |
| case ids and keys | `Ids`, `IdLaws`, `Keys` |
| locks on a lease, over a pipe and over HTTP | `Locks`, `Leases`, `LeaseLaws`, `LeaseSteps` |
| HTTP/1.1 request framing | `Framing`, `FramingLaws`, `HeadLaws`, `SendingLaws`, `RequestLaws`, `Utf8Laws` |
| the launchd plist and the systemd unit | `ServiceFiles`, `ServiceLaws`, `PlistLaws`, `UnitLaws`, `UnitLines`, `ReaderLaws`, `CommandLaws` |
| shared | `Wrappers`, `Words`, `Seqs`, `Texts`, `Quotients` |

## How the model is built

What the program changes in place is changed in place here: `CaseMachine.Case`,
`Stores.Memory`, `Poll.Poller` and `Locks.Locks` are classes with the program's
fields, the alphabet of an id is an array that is shuffled, rotated and
reversed, and loops are loops. Each such method is proved against a function on
values (`Cases.Take`, `Poll.Polled`, `Ids.Shuffle`, `Framing.Read`, ...), and
the lemmas say what that function means: by the events of a case, the log of a
run, the bytes of a request or the characters of a text, and not by the
function's own steps.

- A stored record's JSON is a `Codec`: two functions, one that reads a record
  of an event from a text and one that writes a record. All that is asked of it
  is `Codec.Faithful`: what is read is a record of the event asked for, with
  whole numbers that fit 64 bits, and a record that can be written reads back.
- Errors are their categories, in the order the program checks for them.
- Clocks, the actor who writes, and what a store's read or a lock's take
  answers are arguments.
- `Leases` is a state machine over the critical sections of the lease protocol:
  the mutex makes each one atomic, so a run is any list of them, with a clock
  that moves on by any amount between any two. Its log is what an observer
  sees: grants, renewals and their answers, and locks let go.
- Text is a sequence of characters. In `Framing` and in `TimeText` a character
  stands for a byte.

## What turned out not to hold

- `unit_args` does not give back the arguments of every unit. A program whose
  name holds a line break followed by `ExecStart=` puts that line into the
  unit's condition, above the real one, and it is read instead.
  `UnitLaws.UnitReads` proves the exact condition, and
  `UnitLaws.HiddenLineIsRead` gives such a program. A line break alone does no
  harm to the reading. It does to the unit: the path that a start waits for is
  not quoted, so a unit says what it is to say exactly when its program holds no
  line break and does not end with a carriage return (`UnitLines.UnitSays`).
- A request's head may be longer than the limit its refusal names
  (crates/cli/src/dial.rs:357 lets a line end one byte past what is left of the
  limit, and a blank line one byte past that). `HeadLaws.HeadReadsExactly` says
  which heads are read and which are refused: those of up to one byte over the
  limit, and of two when the blank line is a bare `\n`.
  `HeadLaws.HeadIsReadExactly` says it of any input, and
  `HeadLaws.HeadsCanPassTheLimit` gives such heads.
- A replayed case may hold an option or a link twice, since only a write
  refuses those in an open. `RepeatLaws.ReplayMayRepeat` gives the row of such a
  case. `RepeatLaws.DistinctExactly` says when a case does not, over any rows:
  its options are distinct exactly when its open's are, and its links exactly
  when each link its open gives twice has been dropped by an amend.

## Model

| member | source | states |
|---|---|---|
| Names.NamesReadBack | crates/core/src/names.rs:26-60 | the name an author or an event is stored under reads back as that author or event |
| Names.AuthorAndEventExactly | crates/core/src/names.rs:26-60 | a text is read as an author or an event if and only if it is that one's name |
| Names.KindAndUrgencyExactly | crates/core/src/names.rs:26-60 | and so for each kind and each urgency |
| Records.Record.WithActor | crates/core/src/record.rs:499-510 | replacing a record's actor leaves its event and its time as they were |
| Records.Record.WithAt | crates/core/src/record.rs:513-525 | replacing a record's time leaves its event and its actor as they were |
| CaseMachine.Case.StartCase | crates/core/src/case.rs:302-343 | a new case is where an open puts it, its counts zero, or the open is refused for the first rule it breaks |
| CaseMachine.Case.Reopen | crates/core/src/case.rs:571-575 | the answer and the pickup go, the state is open, and nothing else of the case changes |
| CaseMachine.Case.AmendQuestion | crates/core/src/case.rs:417-444 | the field-by-field changes, in their order, come to the amended question `AmendKeepsOpenFits` is about, and only the question changes |
| CaseMachine.Case.DoAmend | crates/core/src/case.rs:389-413 | an amend is refused in the order author, state, reopen, rules and changes nothing then; taken, it moves `amend_seq` only when the question changes |
| CaseMachine.Case.DoAnswer | crates/core/src/case.rs:448-463 | a stale answer is refused before the state and the rules are looked at, and a refused one changes nothing |
| CaseMachine.Case.DoPickup | crates/core/src/case.rs:466-474 | only an answered or a sent case is picked up, and a refusal changes nothing |
| CaseMachine.Case.DoNote | crates/core/src/case.rs:478-508 | a note that would reopen must say so when written, and reopens on replay though it does not |
| CaseMachine.Case.DoClose | crates/core/src/case.rs:512-526 | a picked-up case closes with an outcome that is not blank, expired only when it is a briefing |
| CaseMachine.Case.DoWithdraw | crates/core/src/case.rs:533-545 | only an open case is withdrawn by the agent, and by the human one that is sent, answered or picked up as well; the slots stay |
| CaseMachine.Case.DoPark | crates/core/src/case.rs:548-559 | only an open case that is stuck is parked |
| CaseMachine.Case.DoResume | crates/core/src/case.rs:562-567 | only a parked case resumes, to open and with no park |
| CaseMachine.Case.Dispatch | crates/core/src/case.rs:361-371 | each record meets its own event's checks; a second open is refused |
| CaseMachine.Case.TakeEvent | crates/core/src/case.rs:351-383 | a taken event is listed with the state before it and moves the latest time; a refused one leaves every field as it was; the counts and problems are untouched |
| CaseMachine.Case.TakeRow | crates/core/src/case.rs:173-180 | one row makes the object, updates it, or is refused with the error the fold lists, and then the object is as it was |
| CaseMachine.Case.FoldRows | crates/core/src/case.rs:169-207 | the loop over the rows, which updates one case in place, gives the recursive fold: skipped rows listed with their error and counted, the highest seq kept |
| CaseMachine.Case.Open | crates/core/src/case.rs:236-243 | the writer's open gives the case and its row, or the same refusal, as the value-level writer does |
| CaseMachine.Case.AppendEvent | crates/core/src/case.rs:275-297 | an accepted append leaves the object as the value-level writer says; a refused one, for whatever reason, leaves every field as it was |
| WriterLaws.StampedFacts | crates/core/src/case.rs:802-810 | a stamped record could be stored: its author may write it, its actor fits, it has a time, and JSON can give it |
| WriterLaws.StampExactly | crates/core/src/case.rs:802-810 | a stamped record is what was read but for its actor, which the one given replaces, and its time, which is its own if it has one and now if not; what does not read is refused as it is |
| WriterLaws.RowReadsBack | crates/core/src/case.rs:814-821 | the row the writer stores reads back as the author and the record it was made from |
| WriterLaws.WriteIsStricter | crates/core/src/case.rs:351-358 | whatever a write takes, a replay takes too, and to the same case |
| WriterLaws.OpenIsFold | crates/core/src/case.rs:236-243 | a case just opened is the fold of its one row, field for field and with no problem |
| WriterLaws.AppendIsFold | crates/core/src/case.rs:275-297 | from any folded case, skipped rows included, an accepted append is the fold of the rows with the new row added, numbered one above every row |
| WriterLaws.RunIsFold | crates/core/src/case.rs:236-297 | after an open and any run of accepted and refused appends, the case in memory is the fold of the rows stored, with no problem, and they are numbered from 1 with no gap |
| WriterLaws.SkippedRowsAreInert | crates/core/src/case.rs:169-187 | the rows that were taken, alone, fold to the same case with no problem, so a skipped row changes nothing but the counts |
| WriterLaws.OneRowMore | crates/core/src/case.rs:172-187 | one row more is one event more, that row as it was stored, or one problem more with the error it was refused with, and nothing else |
| WriterLaws.EveryRowIsAccountedFor | crates/core/src/case.rs:169-207 | the events are the rows taken, in order, the problems are the rows skipped, in order, and together they are the revision |
| WriterLaws.ProblemsSayWhy | crates/core/src/case.rs:172-187 | the problems are the rows skipped and no other, in order, each with its row's number, author and event as stored and the category it was refused with by the case the rows before it make |
| WriterLaws.LastSeqIsHighest | crates/core/src/case.rs:169-207 | the last seq is the highest of any row's, taken or not |
| RevisionLaws.StaleExactly | crates/core/src/case.rs:275-297 | after an open and any attempts, an attempt at a revision that is not the number of rows stored is stale, whatever else is wrong with it, and one accepted is at that number |
| RevisionLaws.OneAtARevision | crates/core/src/case.rs:275-297 | of two attempts at one revision, in any run, at most one is accepted |
| CaseLaws.TakesExactlyTheMoves | crates/core/src/case.rs:351-567 | a case takes an event if and only if it is a move of the machine for its author in that state and its record keeps its rules, and then it moves where the machine says |
| CaseLaws.AnswersOnce | crates/core/src/rules.rs:278-380 | an answer that fits gives exactly one response, a drop or the one its kind takes; a message has none |
| RuleLaws.AnswersExactly | crates/core/src/rules.rs:278-450 | an answer fits if and only if it is one response that suits the question, written as that response and nothing more, and saw no amend that is not there: a choice of an option there is, a verdict on each row and on no other, filed numbers in range and given once, and a note where one is owed |
| RuleLaws.OpensExactly | crates/core/src/rules.rs:67-121 | what a case can be opened with: text that says something, the lists of its kind and no other's, each distinct, and what its kind cannot do without |
| RuleLaws.WritesExactly | crates/core/src/rules.rs:123-140 | and what a write asks besides |
| RuleLaws.AmendsExactly | crates/core/src/rules.rs:166-274 | an amend of a question that could have been opened fits if and only if the question after it could have been opened too and is another one, and the amend adds nothing that is there, drops nothing that is not and sets nothing to white space |
| RuleLaws.OpenInOrder | crates/core/src/rules.rs:49-63 | an open is refused for its kind, else its author, else its urgency, else what it says; a name left out is invalid and one no one knows is unknown |
| RuleLaws.RefusedInOrder | crates/core/src/case.rs:351-567 | an event is refused for the author of an amend, else as stale, else for the state, and only then for what it says, and each refusal has that cause |
| RuleLaws.ReadInOrder | crates/core/src/case.rs:782-797 | a row is refused before the case sees it for its event, else its author, else its record, else its actor, and for nothing else |
| RuleLaws.BlankExactly | crates/core/src/rules.rs:20-22 | a text is blank when trimming leaves nothing of it |
| RuleLaws.ActorExactly | crates/core/src/rules.rs:26-43 | an actor's id is 128 bits of base64url: 22 characters of its alphabet |
| RuleLaws.RowIdExactly | crates/core/src/rules.rs:558-590 | a row's id is one word of letters, figures, dots, dashes and underscores |
| CaseLaws.WithoutKeepsNew | crates/core/src/case.rs:421-423 | dropping links, none there twice, leaves none there twice |
| CaseLaws.AmendKeepsOpenFits | crates/core/src/rules.rs:166-258 | a question that could have been opened is one again after any amend it accepts: row ids, labels and left-out items distinct, at most ten left out, the recommend naming an option of a decision |
| CaseLaws.AmendKeepsWriteFits | crates/core/src/rules.rs:196-258 | options and links that were distinct stay so, through links dropped and added |
| CaseLaws.TakeKeepsSound | crates/core/src/case.rs:351-383 | one more event keeps the whole invariant: the slots of each state, the question's rules, the answer that still fits, the chain of states, the latest time |
| CaseLaws.EveryCaseIsSound | crates/core/src/case.rs:389-575 | every case any rows fold to keeps that invariant, whatever rows were skipped: each state has exactly its slots, a message is never open, answered or parked, only a stuck case is parked, and the events are a run of the machine |
| HistoryLaws.EveryCaseIsTold | crates/core/src/case.rs:169-575 | over any rows a case is what its events say: the standing answer, pickup, park and close are the last given and not ended since; title, body, context, recommend, landed and left-out are those of the last event that set them; options, rows and labels are all that were given, in order; links are those given and not dropped since; and `amend_seq` is the number of the last event that changed the options, rows, body or left-out list |
| HistoryLaws.AnswerKept | crates/core/src/case.rs:448-463 | the answer a case keeps was given, is as it was given, and no event since has reopened the case or answered it |
| CaseLaws.WrittenCaseKeepsWriteRules | crates/core/src/rules.rs:123-140 | a case the writer alone made keeps the rules of a write as well, after any run of appends |
| RepeatLaws.DistinctExactly | crates/core/src/rules.rs:126-258 | over any rows, skipped ones and all, a case's options are distinct if and only if its open's are, and its links if and only if each link its open gives twice was dropped by an amend taken since |
| RepeatLaws.ReplayMayRepeat | crates/core/src/rules.rs:49-63 | a stored open that gives an option and a link twice folds to a case that has them twice, and no writer opens it |
| CaseLaws.VerdictsMatchRows | crates/core/src/rules.rs:383-411 | the standing answer of an approval not dropped has one verdict for each row of the question as it is now, and none for anything else |
| CaseLaws.StandingAnswerNamesTheQuestion | crates/core/src/rules.rs:278-314 | a standing choice names an option there is, and filed numbers are distinct, in range and only a briefing's |
| CaseLaws.DistinctInRange | crates/core/src/rules.rs:432-450 | filed numbers that are distinct and in range are no more than there are items |
| CaseLaws.EndedTakesNothing | crates/core/src/case.rs:351-372 | a closed or a withdrawn case refuses every event there is |
| CaseLaws.EndedForGood | crates/core/src/case.rs:169-207 | whatever rows follow, such a case stays as it ended and each of them is a problem |
| Freshness.StatesArePigeonholes | crates/core/src/freshness.rs:99-119 | distinct states are at most seven, so the array of states left never overflows |
| Freshness.Walk | crates/core/src/freshness.rs:99-119 | the loop with its bounded array finds exactly whether each state is known and none comes back once left, and no write leaves the array |
| Freshness.SinceDrawn | crates/core/src/freshness.rs:74-120 | the method on the case gives the value-level answer the laws below characterise |
| FreshnessLaws.FormPicksAdded | crates/core/src/freshness.rs:81-87 | the two numbers a form keeps pick out exactly the events added since, their count tells whether every added row was taken, and the seq tells whether the question moved |
| FreshnessLaws.NumbersRise | crates/core/src/freshness.rs:82 | over rows with rising seqs the events rise, and neither they nor `amend_seq` pass the last seq |
| FreshnessLaws.SearchIsSound | crates/core/src/freshness.rs:82 | over rows with rising seqs the binary search is asked of events it can be asked of, whatever seq it looks for |
| FreshnessLaws.PathIsStates | crates/core/src/freshness.rs:102 | the states the walk sees are the states the case was in, row by row |
| FreshnessLaws.HeldByNoteOrAmend | crates/core/src/freshness.rs:91-95 | the case stayed in its state all along exactly when all that was added is notes and amends taken in it |
| FreshnessLaws.UnchangedExactly | crates/core/src/freshness.rs:74-95 | over any extension of the rows, `since` is unchanged if and only if every row added was taken, the question was not amended (or is the human's own) and the state never moved |
| FreshnessLaws.MovedExactly | crates/core/src/freshness.rs:78-119 | `since` is moved if and only if every row added was taken, the question stands, each state was visited in one unbroken stretch, and the state now is another one than the form's |
| FreshnessLaws.UnchangedIsSafe | crates/core/src/freshness.rs:74-95 | when unchanged, state, answer, pickup, park and close are those the form showed, and on every kind but message the question and `amend_seq`; an answer, withdraw, park or resume then gets the verdict of the state machine it would have got |
| FreshnessLaws.FormSendsAsDrawn | crates/core/src/case.rs:275-297 | when unchanged, the whole append of an answer, withdraw, park or resume, at the revision now, is accepted exactly when it would have been at the form's revision, unless the seqs have run out; refused on any kind but message, it is for the same reason |
| FreshnessLaws.EditSendsAsDrawn | crates/cli/src/commands/tui/compose.rs:97-105 | and so is the edit of a body, on a message too, when the case's `amend_seq` has not passed the form's seq |
| Stores.AppendIsClean | crates/core/src/store.rs:96-103 | rows that fold with no problem still do once the writer's row is added, to the case the writer gives |
| Stores.Memory.Create | crates/core/src/store.rs:81-87 | a case opened is under a key no case had, folds to the case given, leaves every other case as it was and moves the version; a refused open changes nothing |
| Stores.Memory.AppendRow | crates/core/src/store.rs:89-105 | one row is added to one case, whose fold is the case given, and the version moves; a missing case or a refusal changes nothing |
| Stores.Memory.TakeOut | crates/core/src/store.rs:63-73 | a case is taken out exactly when it is there and still at the revision asked for; its key is not given again |
| Stores.Memory.Archive | crates/core/src/store.rs:63-121 | a case there, at the revision asked for, is moved to the archive with its rows as they were and the version moves; else it is refused as missing or stale and nothing changes |
| Stores.ListFrom | crates/core/src/store.rs:111-115 | every case there is listed with all its rows, none that is not, in the order they were opened |
| Stores.Memory.RowsSince | crates/core/src/store.rs:131-138 | the store in memory keeps the contract of `rows_since`, the order of the cases included, and no version of it names two different states |
| Poll.Poller.PollOnce | crates/core/src/poll.rs:84-117 | the updates of the cache come to the value-level poll, and a failed read forgets everything |
| Poll.InsertIs | crates/core/src/poll.rs:112-114 | inserting what changed, in any order, refolds exactly the cases listed and leaves the others |
| Poll.CoversSuffices | crates/core/src/store.rs:332-355 | dropping what a store says is gone and refolding what it says changed gives the full read |
| Poll.PollIsFullRead | crates/core/src/poll.rs:84-117 | a poll that succeeds leaves exactly the fold of every case now, at the version now, whichever of the three answers the contract allows the store gave |
| Poll.RunsAreExact | crates/core/src/poll.rs:84-117 | so it does over any run of writes and polls, some failing; between polls the cache is some past moment of the store, exactly |
| StoreRuns.MemoryRunsAreLegal | crates/core/src/store.rs:61-138 | any calls on the store in memory, accepted or refused, with polls between that its own `rows_since` answers or that fail, keep all that the poller is proved against |
| StoreRuns.MemoryPollsAreExact | crates/core/src/poll.rs:84-117 | so over that store, with nothing assumed of either, a poll that succeeds leaves exactly the fold of every case there, at its version |
| RevisionLaws.ChangesAtItsRevision | crates/core/src/store.rs:63-121 | a call for a case at a revision, an append, an archive or a delete, changes the store in memory only when exactly that many rows are stored in the case |
| RevisionLaws.OneCallAtARevision | crates/core/src/store.rs:61-138 | over any run of that store, of two calls for one case at one revision at most one changes it |
| Calendar.YearOfEraIs | crates/core/src/time.rs:186-187 | Hinnant's division finds the year of each day of an era |
| Calendar.DaysRoundTrip | crates/core/src/time.rs:171-198 | every integer day has a date of the calendar, which counts back to it |
| Calendar.DateRoundTrip | crates/core/src/time.rs:171-198 | every date of the calendar comes back from its count |
| Calendar.CountIsTheCalendar | crates/core/src/time.rs:171-178 | 1970-01-01 is day 0 and the day after any date, by the lengths of the months, counts one more |
| Calendar.NextDayIsNextDate | crates/core/src/time.rs:182-198 | the date of the next number is the calendar's next date |
| Calendar.CountRises | crates/core/src/time.rs:171-178 | the count rises strictly with year, month and day |
| TimeText.YearsAreExact | crates/core/src/time.rs:34-48 | the instants in range are exactly those dated in years 0000 to 9999 |
| TimeText.PrintIsWritable | crates/core/src/time.rs:202-211 | every instant held prints a four-digit year, a date and a time of day, and they are that instant |
| TimeText.Display | crates/core/src/time.rs:200-221 | the loop that strips zeros prints the fraction with only the digits it needs |
| TimeLaws.FractionReads | crates/core/src/time.rs:115-129 | a fraction reads to its first nine digits with zeros put on, and leaves what follows it |
| TimeLaws.WrittenReads | crates/core/src/time.rs:73-90 | a text of the RFC 3339 grammar, with any zone and any fraction, reads to the instant it says, if that is in range in UTC |
| TimeLaws.ReadIsWritten | crates/core/src/time.rs:73-141 | a text that reads is a text of that grammar, field for field |
| TimeLaws.ReadsExactlyTheGrammar | crates/core/src/time.rs:73-141 | a text reads to an instant if and only if it is a text of the grammar that says it |
| TimeLaws.PrintReads | crates/core/src/time.rs:200-221 | printing then reading gives back every instant held, to the nanosecond |
| TimeLaws.ReadPrintReads | crates/core/src/time.rs:73-221 | printing what any accepted text read to gives a text of the same instant |
| TimeLaws.PrintIsCanonical | crates/core/src/time.rs:212-220 | what is printed is in UTC with `T` and `Z`, and its fraction ends in no zero |
| TimeLaws.CanonicalIsPrinted | crates/core/src/time.rs:200-221 | and it is the only such text of its instant |
| Ids.ShuffleInPlace | crates/id/src/lib.rs:112-121 | the swaps in place, whose indices depend on the characters, give the shuffle the laws are about |
| Ids.ShuffleRearranges | crates/id/src/lib.rs:112-121 | a shuffle keeps every character, as often as it is there, whatever it is given |
| IdLaws.ShuffleExactly | crates/id/src/lib.rs:112-121 | a text is the shuffle of another if and only if a run of arrangements leads to it, the k-th step of which swaps place k with the place its number, its mirror's and the two characters there choose |
| IdLaws.AlphabetIsSpelled | crates/id/src/lib.rs:29 | the alphabet is small letters, capitals and figures, in that order |
| Ids.RotateInPlace | crates/id/src/lib.rs:130 | rotating in place is taking a prefix to the end |
| Ids.ReverseInPlace | crates/id/src/lib.rs:133 | reversing in place reverses |
| Ids.ElevenDigits | crates/id/src/lib.rs:152-153 | a 64-bit number has at most eleven base-61 digits |
| Ids.PushNumber | crates/id/src/lib.rs:150-164 | the eleven-byte buffer, filled from its end, never runs out and holds the digits of the number |
| Ids.PadInPlace | crates/id/src/lib.rs:135-145 | the padding is exactly as long as is short, a shuffle at a time |
| Ids.EncodeInPlace | crates/id/src/lib.rs:127-146 | the encoder over one array changed in place gives the id the laws are about |
| Ids.PrefixFindsOffset | crates/id/src/lib.rs:67-69 | the first character of an id finds the rotation its key made |
| Ids.SeparatorIsNoDigit | crates/id/src/lib.rs:70-71 | the separator is never one of the digits, and they are distinct |
| Ids.HornerUndoesNumber | crates/id/src/lib.rs:76-80 | reading the digits gives the number back, and no checked step of it overflows |
| Ids.HornerFits | crates/id/src/lib.rs:76-80 | what the digits read to always fits 64 bits |
| Ids.DecodeEncodes | crates/id/src/lib.rs:47-84 | every 64-bit key comes back from its id |
| Ids.DecodesOnlyIds | crates/id/src/lib.rs:64-84 | a text reads to a key if and only if it is the id the key encodes to |
| Ids.IdsAreDistinct | crates/id/src/lib.rs:47-49 | two keys never share an id |
| Ids.IdLength | crates/id/src/lib.rs:127-146 | an id has one character more than its key has digits, or the least it may have |
| IdLaws.EncodeExactly | crates/id/src/lib.rs:127-164 | every character of an id, for every key and least length: the one the key turns the alphabet to, the base-61 digits of the key as places before that one, the separator just before it, and then the shuffles of the alphabet so turned, one after another |
| Ids.FiveCharacters | crates/id/src/lib.rs:31-33 | an id has five characters exactly when its key is below 61 to the fourth |
| Ids.IdIsAlphabet | crates/id/src/lib.rs:127-146 | every character of an id, padding included, is in the alphabet, so none is a dash |
| Keys.SplitsAtFirst | crates/id/src/lib.rs:95-100 | a text is split at its first dash |
| Keys.IdParses | crates/core/src/key.rs:44-51 | an id names its key, alone and before a dash and any slug |
| Keys.ParsesExactlyIds | crates/core/src/key.rs:15-51 | a text names a key if and only if the key is one a store gives and the text is its id, with or without a slug |
| Locks.Locks.KeepLocks | crates/cli/src/dial.rs:972-990 | a take adds its locks and, when leased, starts the lease anew, with what the wait says of letting go itself |
| Locks.Locks.RenewLease | crates/cli/src/dial.rs:1032-1046 | a renewal is answered 200 exactly when a lease runs, and moves its end; else it changes nothing |
| Locks.Locks.ReleaseLocks | crates/cli/src/dial.rs:1051-1058 | every lock goes at once, with the lease and what the wait said |
| Locks.Locks.WatchOnce | crates/cli/src/dial.rs:184-207 | a pass of the watch lets go only locks whose lease has run out, and not once the connection has ended |
| Locks.Locks.EndOnce | crates/cli/src/dial.rs:213-232 | a pass of the end keeps the locks of a wait that said it lets them go itself while its lease runs, and lets go of any others |
| Locks.Locks.LetGoOnce | crates/cli/src/dial.rs:237-254 | a pass of a hold's own wait ends when it was released or its lease has run out, and then nothing is held |
| LeaseSteps.WatchExactly | crates/cli/src/dial.rs:184-207 | in every world an interleaving reaches, a pass of the watch lets go if and only if the log says the lease has run out, and then no lock and no lease is left; before that, and with no lease, it changes nothing |
| LeaseSteps.EndExactly | crates/cli/src/dial.rs:213-232 | a pass of an ending connection's end waits if and only if the word to let go stands and the lease runs; otherwise the connection is gone and holds nothing |
| LeaseSteps.WakeExactly | crates/cli/src/dial.rs:237-254 | a pass of a hold's own wait goes on if and only if its lease runs; otherwise the hold is gone with nothing held, and says it lapsed exactly when its lease had run out |
| LeaseSteps.RenewExactly | crates/cli/src/dial.rs:1032-1046 | a renewal that is heard is answered 200 if and only if the log says a lease is there, and then the lease runs as long again from now; else nothing changes |
| LeaseSteps.ReleaseExactly | crates/cli/src/dial.rs:1051-1058 | a release that is heard leaves no lock, no lease and no word |
| LeaseSteps.KeepExactly | crates/cli/src/dial.rs:968-994 | a take adds its scopes to what the log says was granted; a leased one starts the lease anew with what it says of letting go, and one that is not leaves the lease as it was |
| LeaseSteps.NoStoreExactly | crates/cli/src/dial.rs:968-994 | a take with no store to lock takes no lock, and starts a lease exactly when it asks for one |
| LeaseSteps.AcquireExactly | crates/cli/src/dial.rs:968-994 | a take is on its way if and only if the connection hears it and no one was granted, or has on its way, any of its scopes |
| LeaseSteps.StartsExactly | crates/cli/src/dial.rs:170-176 | a connection starts with nothing, a hold with its take on its way, or with a lease and no lock when there is no store; an owner there is starts nothing |
| LeaseSteps.PhasesExactly | crates/cli/src/dial.rs:184-254 | every action moves its own party as the log says, serving, ending or gone, and leaves every other party as it was |
| LeaseLaws.EveryRunFits | crates/cli/src/dial.rs:184-254 | in every interleaving, a party's lease, locks and word are what the log of grants, renewals and letting go says, and no scope is held twice |
| LeaseLaws.LocksAreExclusive | crates/cli/src/dial.rs:968-994 | no two waits ever have a scope in common, kept or on its way |
| LeaseLaws.RenewedMeansHeld | crates/cli/src/dial.rs:1032-1046 | a renewal answered 200 means that no lock of the leased take before it was let go since, nor granted to another, however late the renewal and the watch |
| LeaseLaws.LetGoRefusesRenewals | crates/cli/src/dial.rs:1032-1058 | once locks were let go, by a lapse, a release or an end, every renewal is refused until a new leased take |
| LeaseLaws.KeptUntilDeadline | crates/cli/src/dial.rs:213-232 | locks whose wait said it lets them go itself are let go by an end or a lapse no sooner than the deadline of the last take or renewal |
| LeaseLaws.NothingTakesThemSooner | crates/cli/src/dial.rs:213-226 | while such a connection's end waits, no action of anyone changes its locks |
| LeaseLaws.UnsaidEndsAtOnce | crates/cli/src/dial.rs:213-232 | a connection whose wait never said so, or has released, lets its locks go as it ends |
| LeaseLaws.HoldsAreLeased | crates/cli/src/dial.rs:1098-1150 | over HTTP no lock is held without a lease running, none is let go by a connection's end, and once the lease is out the hold's own wait lets it go |
| Framing.ReadHead | crates/cli/src/dial.rs:353-379 | the loop over lines gives the recursive reading of a head |
| Framing.ReadConnection | crates/cli/src/dial.rs:442-447 | the tokens of a header join what earlier ones said |
| Framing.ReadHeaders | crates/cli/src/dial.rs:409-452 | the loop over header lines gives what they say, or the first reason it cannot be read |
| Framing.FailureSticks | crates/cli/src/dial.rs:409-452 | once a header cannot be read, no later one changes the refusal |
| Framing.ReadRequest | crates/cli/src/dial.rs:319-348 | the parts put together, in their order, give the reading of a request |
| RequestLaws.RequestLineExactly | crates/cli/src/dial.rs:382-394 | a line is read as a method, a target and a version 1.0 or 1.1 if and only if it is those three words with one space between them, and the version is the one written |
| RequestLaws.TargetExactly | crates/cli/src/dial.rs:324-348 | the path and the query are the target cut at its first `?` |
| RequestLaws.TokenExactly | crates/cli/src/dial.rs:456-462 | a header's name is of the visible ASCII characters that are not delimiters of RFC 9110 |
| RequestLaws.OwsExactly | crates/cli/src/dial.rs:465-468 | a value is what is between the spaces and tabs around it |
| RequestLaws.SaysTokenExactly | crates/cli/src/dial.rs:442-447 | a `Connection` header says a token if and only if one of the words between its commas is the token, in any case and with any spaces around it |
| RequestLaws.LastHeaderCounts | crates/cli/src/dial.rs:409-452 | the content type and the agent are those of the last header of the name, in any case |
| RequestLaws.FaultsExactly | crates/cli/src/dial.rs:409-480 | header lines are read if and only if none has a fault, and otherwise refused for the first that has |
| RequestLaws.HeadDecides | crates/cli/src/dial.rs:319-348 | once its head is there, a request is refused for its bytes, then for its first line, then for its first faulty header, and else is read when its body is there |
| RequestLaws.PartIsTheEnd | crates/cli/src/dial.rs:319-379 | a request cut short anywhere is neither taken nor refused: it reads as the end |
| Utf8Laws.Utf8Exactly | crates/cli/src/dial.rs:324-333 | bytes are UTF-8 if and only if they are some Unicode scalar values, encoded |
| Framing.ServeOn | crates/cli/src/dial.rs:117-140 | the loop serves the requests one after another until the input ends, one is refused or one asks to close |
| FramingLaws.HeadTakes | crates/cli/src/dial.rs:353-379 | reading a head takes blank lines and then exactly the head, which reads the same whatever follows |
| FramingLaws.RequestTakesItsOwn | crates/cli/src/dial.rs:319-379 | a request takes its blank lines, its head and the body its head declares, and not a byte more; its head is at most two bytes over the limit |
| FramingLaws.ReadingIsLocal | crates/cli/src/dial.rs:319-348 | the bytes of a request read to that request before anything else at all |
| FramingLaws.RefusalIsFinal | crates/cli/src/dial.rs:319-379 | a refused input is refused for the same reason whatever else arrives |
| FramingLaws.LengthIsDeclaredOnce | crates/cli/src/dial.rs:409-480 | headers that are read declare no other framing, and the body's length is the one length declared, or 0 (section 6.3 of RFC 9112) |
| FramingLaws.ClosesExactly | crates/cli/src/dial.rs:404-452 | a request ends its connection if and only if a header says `close`, or its version is 1.0 and no header says `keep-alive` |
| RequestLaws.ClosesByItsBytes | crates/cli/src/dial.rs:404-452 | by the bytes of a request that is read: it closes its connection if and only if a header says `close`, or its first line ends in ` HTTP/1.0` and no header says `keep-alive` |
| RequestLaws.OldRequestCloses | crates/cli/src/dial.rs:117-140 | a request of version 1.0 with no header is the last of its connection, whatever follows |
| HeadLaws.HeadReadsExactly | crates/cli/src/dial.rs:353-379 | lines of text, ended by `\n` or `\r\n`, and a blank line are read as a head if they are at most one byte over the limit, or two with a bare `\n` last, and refused as too long if not |
| HeadLaws.HeadIsReadExactly | crates/cli/src/dial.rs:353-379 | an input reads to a head and leaves the rest if and only if it is blank lines, then that head, of lines that fit, then that rest |
| SendingLaws.SendableReads | crates/store-remote/src/client.rs:644-670 | a request written as the remote store's client writes it, its headers in that order, reads back field for field: method, path, query, agent, content type, close and body |
| SendingLaws.RequestsAreDelivered | crates/cli/src/dial.rs:117-140 | any list of such requests, written one after another before any bytes at all, is served as that list, up to the first that closes, and the bytes after are read on their own |
| SendingLaws.RequestsRoundTrip | crates/cli/src/dial.rs:117-140 | when none closes, serving what was written gives exactly the list of requests, then the end of the input |
| SendingLaws.LongHeadIsRefused | crates/cli/src/dial.rs:353-379 | a message whose head does not fit is refused for that, whatever else it says |
| SendingLaws.MessageIsRead | crates/cli/src/dial.rs:319-348 | a message of any header lines that parse, with its declared body, is read whole, and what follows it is left |
| SendingLaws.SentIsServed | crates/cli/src/dial.rs:117-140 | messages of any header lines that parse, one after another before any bytes, are each taken whole, in order, up to the first that closes |
| SendingLaws.AllAreServed | crates/cli/src/dial.rs:117-140 | when none of them closes, one request is served for each message, and then the input has ended |
| HeadLaws.HeadsCanPassTheLimit | crates/cli/src/dial.rs:353-379 | a head two bytes over the limit is read |
| SendingLaws.PlainRequestFits | crates/cli/src/dial.rs:382-480 | a request to any target in UTF-8 with any body within its limit, and the one header its body needs, whose head fits, is well formed and reads to that target and that body |
| ServiceFiles.WriteEscaped | crates/cli/src/service.rs:515-531 | the loop escapes each character in turn |
| ServiceFiles.ReadEscaped | crates/cli/src/service.rs:612-639 | the loop over entities gives the text, or the first entity that is not closed or not known |
| ServiceFiles.WritePlist | crates/cli/src/service.rs:457-511 | the pushes, in order, give the plist the laws are about |
| ServiceFiles.ReadPlist | crates/cli/src/service.rs:579-609 | the loop over the array gives its strings, or the first fault |
| ServiceFiles.WriteQuoted | crates/cli/src/service.rs:562-576 | the loop quotes each character, doubling `$` only in a command |
| ServiceFiles.WriteUnit | crates/cli/src/service.rs:538-557 | the pushes, in order, give the unit the laws are about |
| ServiceFiles.ReadQuoted | crates/cli/src/service.rs:651-678 | the loop over characters, looking one ahead, gives the text up to the closing quote and what follows it |
| ServiceFiles.ReadUnit | crates/cli/src/service.rs:643-682 | the loop over the command gives its arguments, or the first fault |
| ServiceLaws.EscapedReads | crates/cli/src/service.rs:515-639 | escaped text reads to the text, for every text, and holds no character that could end its element or its line |
| ServiceLaws.MarkerIsFound | crates/cli/src/service.rs:580-582 | the first `ProgramArguments` key found in a plist is the one printed as such |
| ServiceLaws.StringsRead | crates/cli/src/service.rs:590-608 | the printed strings, indented line by line, read to the arguments, empty and white ones included |
| ServiceLaws.PlistReads | crates/cli/src/service.rs:457-609 | the arguments of a plist are those it was written with, for every specification |
| PlistLaws.PlistSays | crates/cli/src/service.rs:457-511 | read by the rules of property lists, a plist says just what its specification does, key by key, in order and no more: label, arguments, environment, run at load, kept alive while its program is there, and both logs, whatever they hold |
| ReaderLaws.FindExactly | crates/cli/src/service.rs:580-588 | a text is found where it is first, and nowhere else |
| ReaderLaws.EntityExactly | crates/cli/src/service.rs:621-634 | the entities are the five with names and each character by its code, in hexadecimal or in decimal |
| ReaderLaws.UnescapeExactly | crates/cli/src/service.rs:612-639 | a text reads if and only if it is characters other than `&` and entities, and to what they mean |
| ReaderLaws.StringsExactly | crates/cli/src/service.rs:589-608 | an array reads if and only if it is strings with white space after each, empty elements among them, and to what they say |
| ReaderLaws.ArrayExactly | crates/cli/src/service.rs:579-588 | a plist has arguments if and only if it holds their key, then an array after it, then its end, each the first there is |
| UnitLaws.QuoteReads | crates/cli/src/service.rs:562-676 | a quoted value reads to the value, doubled `%` and `$` and all, and leaves what follows it |
| UnitLaws.CommandReads | crates/cli/src/service.rs:650-681 | a printed command reads to its arguments |
| UnitLaws.DoubledHides | crates/cli/src/service.rs:541-545 | doubling `%` neither hides an `ExecStart=` line in a program nor makes one |
| UnitLaws.QuotedWeighs | crates/cli/src/service.rs:651-678 | what is read from quotes has no more characters other than `%` than what it was read from |
| UnitLaws.ProgramIsSkipped | crates/cli/src/service.rs:644-647 | a program that hides no such line is passed over, line breaks and all |
| UnitLaws.ProgramIsRead | crates/cli/src/service.rs:644-647 | a program that hides one has it read, and it is too short to give the program back |
| UnitLaws.UnitReads | crates/cli/src/service.rs:538-682 | reading a unit gives the arguments it was written with if and only if its program holds no line break followed by `ExecStart=` |
| UnitLaws.HiddenLineIsRead | crates/cli/src/service.rs:643-647 | a program for which it gives no arguments at all |
| UnitLines.UnitSays | crates/cli/src/service.rs:538-576 | read line by line, a unit says just what its specification does, in order and no more (the path it waits for, the command, each variable, the restarts), if and only if its program holds no line break and does not end with a carriage return |
| CommandLaws.FirstExecExactly | crates/cli/src/service.rs:644-647 | the command is what the first `ExecStart=` line says |
| CommandLaws.QuotedExactly | crates/cli/src/service.rs:651-678 | text up to its closing quote reads if and only if it is characters, escapes and doubled `%` or `$`, a single one only where no other follows, and to what they mean |
| CommandLaws.ArgsExactly | crates/cli/src/service.rs:648-682 | a command reads if and only if it is quoted arguments with white space after each, if any, and to what they mean |

## Left out

- JSON: the text of a record, serde, keys given twice and `unsigned_zeros` are behind `Codec`; `Codec.Faithful` states what `every_record_reads_back_from_its_json` (crates/core/src/record.rs:973) asks of the JSON.
- Error messages: an error is its category, and a problem keeps no message.
- I/O errors: a read from a connection always gives its bytes or its end, and a service file is a text.
- The revision of a case is a natural number here; only a seq is bounded, as the one that can run out.
- `Case::open` and `Case::fold` return the case; a case object here is made with its counts zero and set by them, as in the program, but moves and clones of it are not modelled.
- Freshness.SinceDrawn: asks that the events up to the seq come before the others, as `partition_point` asks; what it gives otherwise is not modelled. `FreshnessLaws.SearchIsSound` shows that rows numbered as every store numbers them are like that.
- FreshnessLaws.UnchangedIsSafe: leaves out the edit of a message, which `FreshnessLaws.EditSendsAsDrawn` is about, and says of a message only that a form's event is taken or refused alike, since the category of a refused answer may differ when the human has amended the message.
- Leases.Next: the map of holds by id is the `parties` of a state machine on values, and not a class of its own, since it is the interleaving of its threads that matters; the locks each hold has are the class `Locks.Locks`.
- LeaseLaws.EveryRunFits: the clock is a natural number that only moves on, `lock::take` is assumed to give scopes nobody has, and a hold's id to be one no other hold has; poisoned mutexes, and whether a waiting thread is ever scheduled again, are left out.
- LeaseLaws.HoldsAreLeased: that a hold's wait does wake after its lease runs out is a fact of the system's threads; what it does when it wakes is proved.
- SendingLaws.SendableReads: a body's `Content-Length` is always written, and `Host` is always `localhost`, as that client does; how the client compares the answer is not modelled.
- Framing.ReadRequest: a query is kept as its text; its pairs and their percent-decoding, the routes and the answers are not modelled.
- Stores.Memory.RowsSince: always gives every case when anything moved, as the documented store does; the poller is proved against every answer the contract allows, not against the SQLite store.
- Ids.Encode: that particular keys give particular ids, as the published vectors list, is not computed.
- ServiceFiles.WriteUnit: what systemd itself makes of a unit is not modelled: `UnitLines` reads lines, quotes and specifiers, and no line that goes on in the next.
- `Case::unchanged_since`, listening, statistics, durations, briefings and the other accessors: one-branch functions.
- SQLite, ssh, sockets, processes, the command line, the terminal and web inboxes, configuration, accounts and the evaluations: plumbing, or code whose behaviour is not arithmetic or state.
