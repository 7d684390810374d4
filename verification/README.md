# A verified model of PMLib

PMLib samples power meters. A server keeps one growing sample buffer per line of a
device; clients create counters on some lines, start, continue and stop them, and read
back the samples of the sets measured in between. There are two servers, the C++ one
(`server/`) and the older Python one (`legacy/daemon/`), and one C client library with
printers (`client/`). This project models both servers, the client code that has to agree
with them, and the JSON library that reads the server's configuration, and proves what
they promise.

Check everything with `dafny verify dfyconfig.toml`.

## How the model is laid out

- **Shared buffers.** `Buffers` has the classes `Line` and `Device` with their reference
  counts; `Sessions` the list of measured sets and the shape it keeps; `Counters` the
  effect of every operation; `CounterObjects` and `LegacyCounterObjects` the two counter
  classes, proved against those effects. `Runs` interleaves any number of counters,
  vanishing clients and samples, each call to a counter and each sample as one atomic step.
  `Isolation` states the simple form, a recorder that shares nothing, and `RunLaws` proves
  that every run of the server is a run of the recorder.
- **Replies.** `Replies` and `ReplyLaws` lay out the reply to GET as each server does;
  `PrintColumns` finds the columns of a printed file and `Printers` has the text and csv
  printers, on any reply; `PrintedRows` says what a printed file should show, `TextLaws` and
  `CsvLaws` when each printer prints that of its own server's replies, `SwappedLaws` when of
  the other's, and `Misprints` has an input for every way to fail; `EndToEnd` goes from the
  sampler to the printed file; `Timing` runs the client's timing array together with the
  server's list of sets.
- **Line selection.** `Lines` is the bit mask and its two decoders, `LineSpec` the parser
  of texts such as `30-36,42,100`, and `LineParts` what each text means that it accepts;
  `Config` is the line-number check of the configuration.
- **JSON.** `JsonValues` orders values; `JsonNumbers` and `JsonStrings` read and write
  scalars; `JsonLexer` and `JsonReading` say what the reader does with every document and
  cursor, errors and recovery included; `JsonReaders` is the reader itself, a class with a
  moving cursor; `JsonWriter` is the writer; `JsonRoundTrip` proves that reading inverts
  writing, `JsonRefusals` that a refusal deep inside reaches the top, `JsonDocuments` what
  parsing makes of everything that was printed, `JsonStability` that whatever was parsed
  prints and parses to itself, and `JsonTruncation` that a printed document which breaks
  off is refused; `JsonLeniency` has two kinds of document that are accepted although they
  are no JSON. What the reader makes of texts that no writer printed: `JsonTokens` has every
  token char by char, `JsonSpellings` strings with escapes, `JsonStreams` proves that a
  document is seen only as its tokens, `JsonBlanks` and `JsonComments` what may stand between
  and in front of them, `JsonMembers` objects with members in any order and repeated keys,
  `JsonOptions` the remaining switches.
- **Wire formats.** `Status` is the status dump with its reader; `Framing` and `ArduPower`
  are the self-synchronising frame decoder of the ArduPower meter, and `LostBytes` says what
  it yields of a stream from which bytes were lost.
- `Util`, `Digits` and `Texts` hold sequences, sums, digits and positions in a text.

The class `Device` serves both servers: the lock-protected methods of
`legacy/daemon/devices/Device.py:76-148` change counts and buffers as the C++ ones do.

Classes hold the source's fields and change them in place. Each method is proved against a
function of the old state, and the lemmas are about those functions. Samples and times are
real numbers.

## Results worth knowing

- Counters never disturb each other: `RunLaws.RunRefinesRecorder` and
  `RunLaws.SetDelimitsProducedSamples`.
- What a printer prints of a set is what the device produced between its start and its
  stop: `EndToEnd.TextShowsProduced` and `EndToEnd.CsvShowsProduced`, under the conditions
  that follow.
- The C++ server leaves a line active when the client of an ACTIVE counter vanishes; the
  legacy server does not. The active count of a line is too high by exactly the number of
  such events in the run, and a line nobody selects any more keeps what is sampled since
  (`RunLaws.ReferenceCounts`); three events suffice (`RunLaws.VanishingRun`).
- Above stride 1 the C++ reply promises, copies and sums three different numbers of
  samples (`ReplyLaws.CppCountsAgree` says exactly when they agree). It is as long as it
  promises exactly when the stride is 1 or no set promises more than one sample
  (`TextLaws.PromiseKept`).
- The text printer prints all sets of a C++ reply right, whatever the samples, exactly when
  its columns are filled and one of two things holds: no line is printed; or the reply is as
  long as it promises and either the counter's mask names only lines of the device, or every
  line of the reply is printed, or at most one set promises samples
  (`TextLaws.TextPrintsExactly`). Otherwise it runs past the end
  (`TextLaws.TextRunsPastTheEnd`) or prints a wrong value: `Misprints.StrideMisprinted` above
  stride 1, and `Misprints.ForeignLineMisprinted` for a mask with a line the device lacks.
- The csv printer prints every legacy reply right exactly when its columns are filled with
  lines of the device: no requested line of the counter is missing there, or all lines of the
  reply are requested (`CsvLaws.CsvPrintsExactly`). `Misprints.ForeignHeadingPrinted` is a
  sample printed under a line that the device lacks.
- Each printer reads the other server's layout right exactly when no line is printed, the
  reply has one line, or at most one set has samples (`SwappedLaws.CsvOfSetMajor`,
  `SwappedLaws.TextOfLineMajor`).
- The text printer reads a single set from offset 0. That is right, for every reply with the
  same set lengths, exactly when the set is empty, no line is printed, or all sets in front
  of it are empty (`TextLaws.SingleSetExactly`); `TextLaws.SingleSetWrong` is a reply of
  which a wrong value is printed.
- The printers' guard lets through a set number one past the last set, for which they read
  past the end of watts_sets, and no other number that does (`Printers.GuardExactly`,
  `Printers.OnePastTheLast`).
- The legacy mask decoder differs from the C++ one exactly when the mask selects nothing:
  it then takes every line (`Lines.LegacyDecoderAgrees`). Of such a reply the csv printer
  prints no line if none of the counter's lines is requested (`PrintColumns.LegacyNothing`),
  and otherwise lines that the device lacks, or columns that were never filled.
- With the counters option off, `pm_info` leaves the counters of a device in the stream. It
  shows the inventory, and consumes the dump, exactly when the option is on or no device has
  counters (`Status.ShowExactly`); `Status.NextDeviceMisread` shows what it makes of the
  device that follows.
- A JSON value whose writer drops nulls is given back, up to the tag of its integers, exactly
  when it fits the stack limit and the strict root, is not null itself, holds no array of one
  null, and leaves no gap that the reader does not allow (`JsonDocuments.GivenBackExactly`).
- Text that `FastWriter` prints is never accepted when it breaks off, unless it is a number
  (`JsonTruncation.CutTextRefused`). This says nothing of files written by hand.
- Blanks between the tokens of a printed document change nothing, for every style and feature
  set (`JsonBlanks.BlanksIgnored`), and two documents with the same tokens parse the same
  (`JsonStreams.ParseSeesTokens`). A comment in front of any document is skipped by a reader
  that allows comments and refused by any other (`JsonComments.CommentsInFront`).
- Members may stand in any order: the object holds every key once, in the order of the keys,
  with the value of its last member, and a repeated key is refused exactly by a reader that
  was told to (`JsonMembers.RepeatedKeysExactly`, `JsonMembers.GatheredValues`).
- A reader told to fail on text behind the value lets it pass if it begins with a char that
  begins no token (`JsonOptions.ExtraExactly`).
- A line specification is accepted exactly if every dash has a digit behind it
  (`LineSpec.AcceptedExactly`); `LineParts.AcceptedMeans` says what any accepted text selects,
  empty items, digits in groups of three and chained dashes included.
- The meter's reader yields only windows whose first byte alone is marked. If no first byte of
  a frame is lost, every reading is one that was sent (`LostBytes.OnlySentReadings`); if one
  is, two frames can be mixed into a reading that nobody sent (`LostBytes.MixedReading`).
- A line specification that expands to more than 128 entries runs past the end of the
  parser's array (`LineSpec.SetLines`, `LineSpec.WideTextOverruns`).
- A negative frequency registers a C++ counter with a stride below one
  (`CounterObjects.Counter.constructor`).
- Two looser spots of the member loop are kept as they are, for every feature set: a comma
  in front of `}` is accepted exactly if the name before it is empty
  (`JsonLeniency.TrailingCommaExactly`), and between two members any other char that is a
  token of its own, and no closing brace, is accepted for the comma exactly if a comment
  stands in front of it (`JsonLeniency.SeparatorExactly`).

Where code and comments differ the model follows the code: `server/counter.hpp` speaks of
restart on an open set as appending, the code answers with an error; the printers' comments
say set 0 stands for all sets, the code uses -1.

## Model

| member | source | states |
|---|---|---|
| Lines.SelectedIsExact | server/counter.cpp:258-268 | the decoded list is strictly increasing and holds exactly the lines set in the mask and below the device's line count |
| Lines.SelectedRank | client/pm_print_data_text.c:85-97 | a set line sits in the decoded list behind exactly the set lines below it, so rank and select are inverse |
| Lines.ClearAllLines | client/line.h:7-14 | afterwards no line is set |
| Lines.SetLine | client/line.h:25-31 | sets that line if the mask has it and changes no other line |
| Lines.ClearLine | client/line.h:33-39 | clears that line and changes no other line |
| Lines.AndLines | client/line.h:49-58 | a line is set in the result exactly when both masks have it |
| Lines.ReversedOctetsAreLines | legacy/daemon/modules/Counter.py:153-157 | the big-integer text of the mask, each octet reversed, has a 1 at position l exactly when line l is set |
| Lines.LegacyDecoderAgrees | legacy/daemon/modules/Counter.py:153-161 | the legacy decoder gives the same list as the C++ one, except that it takes every line when the mask selects none of the device |
| LineSpec.CheckCharacters | client/pm_set_lines.c:18-31 | passes a text exactly when it has only digits, dashes and commas |
| LineSpec.ReadEntries | client/pm_set_lines.c:32-111 | for every text, the stored entries and the success are those of the scan, turn by turn, whatever the uninitialised number was; it overruns the array exactly if there are more entries than places |
| LineSpec.SetLines | client/pm_set_lines.c:6-118 | for every text: 0 exactly when it is accepted, that is if it has only digits, dashes and commas and a digit behind every dash, and then the mask has exactly the entries below 128; otherwise -1 and the mask is untouched; or the array of 128 entries is overrun, exactly when the characters are allowed and there are more |
| LineSpec.AcceptedExactly | client/pm_set_lines.c:57-94 | a text of allowed characters is accepted if and only if every dash is followed by a digit |
| LineParts.PartsRead | client/pm_set_lines.c:33-111 | any list of items, each digits or none with any number of dashes and digits behind, joined by commas, is scanned with success and stores what the items mean |
| LineParts.AcceptedMeans | client/pm_set_lines.c:33-111 | every accepted text is such a list, and stores what its items mean |
| LineSpec.WideTextOverruns | client/pm_set_lines.c:17-111 | a well-formed text overruns exactly if it expands to more than 128 lines, a single range exactly if it spans more than 128 |
| LineSpec.ItemsRead | client/pm_set_lines.c:33-111 | scanning any list of numbers and ranges of 1-3 digits, joined by commas, succeeds and yields the numbers and expanded ranges in order |
| LineSpec.SpecificationSelectsNamedLines | client/pm_set_lines.c:32-118 | parser, mask bits and server decoding together give the strictly increasing list of exactly the named lines below the line count |
| Config.AcceptedNumbersArePermutation | server/server.cpp:313-332 | n different numbers in 0..n-1 are all of 0..n-1 |
| Config.CheckAndRegister | server/server.cpp:316-347 | accepts exactly the devices whose line numbers are all different and in range, then has a line under every number 0..n-1; a rejection names a number that is really repeated or outside |
| Counters.SelectionsExist | server/counter.cpp:258-268 | every line either decoder selects exists on the device, in increasing order |
| Counters.IntervalIsNearest | server/counter.cpp:270-277 | a frequency the device can serve gives a stride of at least 1 that is the nearest integer to the ratio of the frequencies, and of two as near ones the larger |
| Counters.StridePositive | server/counter.cpp:270-277 | of all frequencies that pass the check, exactly the negative ones give a stride below 1, the nearest integer to the negative ratio, and of two as near ones the lower |
| Counters.RefusedExactly | server/counter.cpp:270-277 | for every int frequency: refused exactly if it is above the device's own |
| Buffers.Line.Disable | server/device.hpp:104 | lowers the enabled count, never below zero, and changes nothing else |
| Buffers.Line.Deactivate | server/device.hpp:107 | lowers the active count, never below zero, and changes nothing else |
| Buffers.Line.PushBackData | server/device.hpp:111 | appends one sample and keeps both counts |
| Buffers.Device.RegisterCounter | server/device.cpp:61-68 | enables exactly the selected lines once each and adds the counter |
| Buffers.Device.DeregisterCounter | server/device.cpp:70-82 | for a registered counter, releases exactly its lines and empties those nobody holds; for an unknown one changes nothing |
| Buffers.Device.PushBackData | server/device.cpp:113-119 | every active line grows by its own sample value, every other line stays |
| Buffers.Device.GetLinesSizes | server/device.cpp:121-126 | the map from each selected line to its buffer length |
| Buffers.Device.StartCounter | server/device.cpp:132-138 | raises the active count of exactly the selected lines by one |
| Buffers.Device.StopCounter | server/device.cpp:140-146 | lowers the active count of exactly the selected lines by one |
| Sessions.InactiveSetsAreClosed | server/counter.cpp:162-183 | GET never reads a missing set end, on any selected line |
| Sessions.LastSetGuardRedundant | legacy/daemon/modules/Counter.py:148-150 | the guard last_set_completed holds exactly when the counter is INACTIVE |
| Sessions.GrowthKeepsShape | server/device.cpp:113-119 | buffers that only grow keep the set list of every counter in shape: last set open exactly when ACTIVE, and first <= second <= next first <= buffer size |
| Sessions.StartKeepsShape | server/counter.cpp:113-128 | a start keeps that shape |
| Sessions.ContinueKeepsShape | server/counter.cpp:130-144 | a restart keeps that shape |
| Sessions.StopKeepsShape | server/counter.cpp:146-160 | a stop keeps that shape |
| Counters.EffectsKeepShape | server/counter.cpp:113-250 | every operation of either server, accepted or refused, keeps the set list in shape |
| Counters.CopyLine | server/counter.cpp:218-222 | copies the samples 0, k, 2k, ... of the slice |
| Counters.WalkLine | server/counter.cpp:195-201 | the walk with a `!=` end test stays inside the buffer, makes exactly the specified number of visits and adds exactly their strided samples, once each |
| CounterObjects.Counter.constructor | server/counter.cpp:56-90 | for every int frequency: a new counter is registered on its lines, INACTIVE and without sets, or refused for a frequency above the device's, and then the device is unchanged; its stride can be used exactly if the frequency is not negative |
| CounterObjects.Counter.SetFrequency | server/counter.cpp:270-277 | the stored stride is the rounded ratio, halves away from zero, of every int frequency, and at least 1 exactly if that is not negative |
| CounterObjects.Counter.SetLines | server/counter.cpp:258-268 | the loop over bytes and bits gives exactly the decoded list |
| CounterObjects.Counter.Destroy | server/counter.cpp:92-95 | a registered counter leaves the device, its lines released but not deactivated |
| CounterObjects.Counter.Start | server/counter.cpp:113-128 | the device, the session and the answer are those of START: on an INACTIVE counter a fresh set list with one open set, on an ACTIVE one an error and no change |
| CounterObjects.Counter.Restart | server/counter.cpp:130-144 | the same for CONTINUE, the earlier sets kept |
| CounterObjects.Counter.Stop | server/counter.cpp:146-160 | the same for STOP: the last set ends at the present offsets |
| CounterObjects.Counter.Finalize | server/counter.cpp:241-250 | ends an INACTIVE counter and refuses an ACTIVE one |
| CounterObjects.Counter.Get | server/counter.cpp:162-239 | the loops build exactly the C++ reply to the recorded sets, aggregated or not, at every stride, and change nothing |
| LegacyCounterObjects.LegacyCounter.Start | legacy/daemon/modules/Counter.py:39-47 | as the C++ start; the extra guard never changes the outcome |
| LegacyCounterObjects.LegacyCounter.Continue | legacy/daemon/modules/Counter.py:53-61 | as the C++ restart |
| LegacyCounterObjects.LegacyCounter.Stop | legacy/daemon/modules/Counter.py:67-75 | as the C++ stop |
| LegacyCounterObjects.LegacyCounter.Destroy | legacy/daemon/modules/Counter.py:138-142 | deactivates the lines of an ACTIVE counter before it releases them |
| LegacyCounterObjects.LegacyCounter.Finalize | legacy/daemon/modules/Counter.py:132-134 | ends the counter in every state |
| LegacyCounterObjects.LegacyCounter.Get | legacy/daemon/modules/Counter.py:81-126 | the loops build exactly the legacy reply at every stride and change nothing |
| Isolation.CountersHoldTheirLines | server/device.cpp:70-82 | a line that an ACTIVE counter selects is active and enabled, so it is sampled and its buffer is not emptied under it |
| Isolation.StepAgrees | server/counter.cpp:113-250 | one step of the shared-buffer server keeps its invariant and is one step of the recorder, with the same answer |
| RunLaws.RunRefinesRecorder | server/counter.cpp:113-250 | in every interleaving of counters, disconnects and samples, every counter's sets delimit its private recording and every answer is that of a server that shares nothing |
| RunLaws.SetDelimitsProducedSamples | server/counter.cpp:113-160 | START or CONTINUE, then anything the others do, then STOP: the new set holds on every line exactly the samples produced in between, and the kept sets are unchanged |
| RunLaws.ReplyCarriesProducedSamples | server/counter.cpp:162-233 | the GET that follows answers from the kept sets and exactly those samples |
| RunLaws.ClosedSetsKept | server/counter.cpp:113-160 | closed sets keep their samples over any later events until a new START, FINALIZE or disconnect of that counter |
| RunLaws.InitialWorldOk | server/device.cpp:46-48 | a device without counters satisfies the invariant of all runs |
| RunLaws.ReferenceCounts | server/device.hpp:100-110 | after every run a line's enabled count is the number of counters selecting it, and its active count that of the ACTIVE ones plus, in the C++ server, one for each event of the run at which the client of an ACTIVE counter on the line vanished; it is right exactly if there is none, and at most the enabled count exactly if there are no more than INACTIVE counters on the line; a line without counters is empty, or has, if there is one, exactly what was sampled since a counter last selected it |
| RunLaws.StraysAreVanished | server/counter.cpp:92-95 | what a run leaves active with nobody registered is exactly those events |
| RunLaws.NoDisconnectNoStrays | server/counter.cpp:241-250 | a run leaves nothing active behind if and only if no client of an ACTIVE counter vanishes or the server is the legacy one: FINALIZE, and clients that vanish while INACTIVE, leave nothing |
| RunLaws.VanishingRun | server/counter.cpp:92-95 | create, start, disconnect: the line is active once and enabled never, and no counter is registered |
| RunLaws.VanishedClientLeavesLineActive | server/counter.cpp:92-95 | the vanishing client of an ACTIVE counter leaves each of its lines one too active |
| Replies.CeilDivMeans | legacy/daemon/modules/Counter.py:89-90 | the true ceiling counts exactly the multiples of the stride inside a set |
| Replies.SetMajorAt | server/counter.cpp:210-228 | in the C++ layout sample i of line l in set s sits behind n times the earlier sets and l times its own length |
| Replies.LineMajorAt | legacy/daemon/modules/Counter.py:103-105 | in the legacy layout it sits behind l times the total and the earlier sets |
| Replies.OneSetLayoutsCoincide | legacy/daemon/modules/Counter.py:102-105 | for one set the two layouts are the same |
| ReplyLaws.CppCountsAgree | server/counter.cpp:174-228 | the promised count m, the copied count and the summed count agree if and only if the stride is 1 or m is at most 1 |
| ReplyLaws.VisitsAll | server/counter.cpp:197-199 | the sum visits all m samples unless the stride is above 1 and divides m |
| ReplyLaws.CppAggregateInside | server/counter.cpp:193-203 | although a step can jump over the end test, the sum reads only samples inside the set, and position i sums sample i*k of every line |
| ReplyLaws.CppSampleAt | server/counter.cpp:207-228 | at stride 1 watts_sets are the prefix sums and sample i of line l in set s is at its set-major position |
| ReplyLaws.LegacySampleAt | legacy/daemon/modules/Counter.py:86-105 | at every stride watts_sets are the prefix sums of the common lengths, and the sample at the line-major position is sample i*k of the set, inside it |
| ReplyLaws.LegacyAggregateIsColumnSum | legacy/daemon/modules/Counter.py:93-105 | at every stride the aggregate reply is the column sum of the per-line reply |
| ReplyLaws.RepliesAgreeUpToLayout | legacy/daemon/modules/Counter.py:81-121 | at stride 1 both servers promise the same lengths and send the same blocks, the same aggregate, and for one set the same reply |
| PrintColumns.FindColumns | client/pm_print_data_text.c:69-97 | for every reply: the printed and the counted lines, the columns and their ranks are exactly those of the specification, n_lines_counter being the counter's lines below the line where the first loop stops |
| PrintColumns.ColumnsMean | client/pm_print_data_text.c:85-97 | the columns are exactly the asked lines with fewer than lines_len lines of the counter in front of them, in order, and there is room for min(lines_len, asked lines) of them |
| PrintColumns.FilledExactly | client/pm_print_data_text.c:72-97 | on a reply of the lines that the mask selects among those of the device, the arrays are filled if and only if no asked line is missing on the device or all lines of the reply are asked for |
| PrintColumns.CountedExactly | client/pm_print_data_text.c:72-78 | then n_lines_counter is the number of lines of the reply if and only if the mask names only lines of the device or all lines of the reply are asked for; else it is larger |
| PrintColumns.LegacyColumnsExactly | client/pm_print_data_csv.c:72-97 | on a legacy reply, which has all lines where the mask selects none, the columns are filled with lines of the device under the same condition |
| Printers.GuardExactly | client/pm_print_data_text.c:66-68 | what passes the guard ends inside watts_sets if and only if it is not the number of sets; that number does pass |
| Printers.OnePastTheLast | client/pm_print_data_csv.c:65-106 | both printers run past the end of watts_sets for the number of sets, and refuse exactly the numbers below -1 and above it |
| Printers.TextRows | client/pm_print_data_text.c:117-147 | the running offset reads, of any reply and choice of sets, the rows that lie n_lines_counter lines a set behind the first chosen one |
| Printers.PrintText | client/pm_print_data_text.c:63-153 | on any reply and for every set number: refused, past the end, with unfilled columns, or exactly the rows of the layout, whose meaning the next rows state |
| TextLaws.TextPrintsExactly | client/pm_print_data_text.c:63-153 | for every mask, device, stride and lengths: the text printer prints all sets of the C++ reply right, for all takes with these lengths, if and only if its columns are filled, and no line is printed, or the reply carries what it promises and the counter's lines are counted right or no set with samples stands behind another |
| TextLaws.TextPrintsTakes | client/pm_print_data_text.c:63-153 | under that condition the heading has the asked lines of the device, and each row exactly the strided samples of the printed lines and their sum |
| TextLaws.PromiseKept | server/counter.cpp:174-228 | a C++ reply is as long as its promised lengths exactly if the stride is 1, no set promises more than one sample, or there is no line |
| TextLaws.TextRunsPastTheEnd | client/pm_print_data_text.c:111-147 | of any other C++ reply, printing all sets with the counter's last line reads past the end |
| TextLaws.SingleSetExactly | client/pm_print_data_text.c:111-147 | the rows printed of a single set are right, for all replies with these set lengths, if and only if the set is empty, no line is printed, or every set in front of it is empty |
| TextLaws.SingleSetWrong | client/pm_print_data_text.c:111-147 | in every other case a reply, given outright, whose first printed value is another one than the first sample of the set |
| Misprints.StrideMisprinted | client/pm_print_data_text.c:117-147 | two lines of four samples at stride 2: printing the first one prints two rows, the second with a sample of the other line |
| Misprints.ForeignLineMisprinted | client/pm_print_data_text.c:72-78 | a counter of lines 0, 1 and 100 on a device of two lines: of the second set the sample of line 1 is printed for line 0 |
| Misprints.ForeignLineUnfilled | client/pm_print_data_text.c:81-102 | with line 100 requested too, a column that was never filled is printed, whatever was measured |
| Printers.PrintCsv | client/pm_print_data_csv.c:62-145 | as PrintText, with the rows of the line-by-line layout |
| CsvLaws.CsvPrintsExactly | client/pm_print_data_csv.c:62-145 | for every mask, device, stride and choice of sets: the csv printer prints the legacy reply right, the asked lines of the device in the heading and exactly their strided samples and sums in the rows, if and only if no asked line of the counter is missing on the device or all lines of the reply are asked for |
| PrintColumns.LegacyNothing | client/pm_print_data_csv.c:80-102 | where the mask selects nothing that is a heading without lines |
| Misprints.ForeignHeadingPrinted | client/pm_print_data_csv.c:80-145 | a counter of line 100 on a device of one line: its sample is printed under line 100 |
| SwappedLaws.CsvOfSetMajor | client/pm_print_data_csv.c:104-145 | the csv printer prints all sets of a reply that is laid out set by set right, for all samples, if and only if no line is printed, the reply has one line, or at most one set has samples |
| SwappedLaws.TextOfLineMajor | client/pm_print_data_text.c:111-147 | the text printer prints all sets of a reply that is laid out line by line right under the same condition |
| Printers.PrintAggregate | client/pm_print_data_text.c:29-61 | the same for the aggregate mode of both printers |
| PrintedRows.AggregatePrintsSeries | client/pm_print_data_text.c:46-61 | of a reply with one series per set the rows are the series of the chosen sets in order |
| PrintedRows.AggregateRepliesCarrySeries | server/counter.cpp:190-206 | the aggregate replies of both servers are laid out as those rows read them, at every stride |
| EndToEnd.CreatedMeasures | server/counter.cpp:56-90 | the counters the next two rows speak of are those that a creation request makes |
| EndToEnd.TextShowsProduced | client/pm_print_data_text.c:63-153 | C++ server and text printer, at every stride and for every mask, where the condition of TextPrintsExactly holds: the last rows show, for each asked line of the device, every k-th value that it produced between START or CONTINUE and STOP, whatever the other clients did, and there are exactly as many as the server promises |
| EndToEnd.CsvShowsProduced | client/pm_print_data_csv.c:62-145 | the same for the legacy server and the csv printer, for the new set and for all sets, if and only if the condition of CsvPrintsExactly holds |
| Timing.Measures.StartCounter | client/pm_start_counter.c:93-96 | resets the pair count and stores the time in the first slot only |
| Timing.Measures.ContinueCounter | client/pm_continue_counter.c:84-86 | stores the time in the next opening slot only |
| Timing.Measures.StopCounter | client/pm_stop_counter.c:57-61 | stores the time in the closing slot only and counts the pair |
| Timing.NextInStep | client/pm_stop_counter.c:57-61 | each successful call keeps next_timing equal to the server's closed sets and pair s the span of set s |
| Timing.ClientAndServerInStep | client/pm_start_counter.c:93-96 | after every history of successful calls that is still so, and watts_sets_size is next_timing + 1 |
| Timing.FreshCounterInStep | client/pm_start_counter.c:93-96 | a new counter starts out in step |
| JsonValues.StringTrichotomy | server/utils/jsoncpp.cpp:2720-2744 | keys are ordered strictly and totally, and equal keys are the same |
| JsonValues.StringTransitive | server/utils/jsoncpp.cpp:2720-2732 | the key order is transitive |
| JsonValues.StringOrder | server/utils/jsoncpp.cpp:2720-2732 | a key is smaller if and only if it is a proper prefix of the other, or its char is smaller at the first place where they differ |
| JsonValues.LessExactly | server/utils/jsoncpp.cpp:2961-3006 | values are ordered by type first; then numbers by size, false below true, strings as keys are, arrays by their first different element or else by length, objects by size and then by their first different member |
| JsonValues.TypeOrder | server/utils/jsoncpp.cpp:2961-2966 | the types in their order, from null to objects |
| JsonValues.EqualIsSame | server/utils/jsoncpp.cpp:3014-3057 | on real-free values operator== holds exactly of the same value |
| JsonValues.Trichotomy | server/utils/jsoncpp.cpp:2961-3006 | on real-free values exactly one of a < b, a == b, b < a holds |
| JsonValues.Transitive | server/utils/jsoncpp.cpp:2961-3006 | on real-free values operator< is transitive, through arrays and objects of any nesting |
| JsonNumbers.UintToString | server/utils/jsoncpp.cpp:149-155 | the buffer filled from its end holds the decimal form of every 64-bit value |
| JsonNumbers.DecodeNumber | server/utils/jsoncpp.cpp:753-793 | in 64-bit arithmetic that never overflows, returns the exact integer of a token or hands it on |
| JsonNumbers.IntegerIffFits | server/utils/jsoncpp.cpp:762-793 | an optional minus and digits give the exact integer if and only if it fits the 64-bit range |
| JsonNumbers.RangesOfIntegers | server/utils/jsoncpp.cpp:1736-1774 | digits are an int up to 2147483647, an unsigned one up to 18446744073709551615 and handed on beyond; with a minus an int down to -9223372036854775808 |
| Digits.NumberIsPlaceValue | server/utils/jsoncpp.cpp:753-793 | the number that digits spell is the sum of each digit times ten to its place from the end |
| JsonNumbers.NumberRoundTrip | server/utils/jsoncpp.cpp:4136-4158 | decoding what valueToString prints gives every 64-bit integer back, retagged |
| JsonStrings.ValueToQuotedString | server/utils/jsoncpp.cpp:4286-4346 | both the whole copy and the escaping walk give the quoted form |
| JsonStrings.DecodeString | server/utils/jsoncpp.cpp:1834-1885 | for all chars between the quotes the loop decodes, or rejects, as specified |
| JsonStrings.DecodeEscaped | server/utils/jsoncpp.cpp:1834-1885 | decoding the escaped form of any string gives the string back |
| JsonStrings.EscapedScalarsSurvive | server/utils/jsoncpp.cpp:1887-1943 | any sequence of Unicode scalar values written as `\u` escapes, pairs included (section 7 of RFC 8259), decodes to text that reads as those values in UTF-8 (section 3 of RFC 3629) |
| JsonTokens.ShortEscape | server/utils/jsoncpp.cpp:1847-1871 | each of the eight escapes of one char gives its own char |
| JsonTokens.NoEscape | server/utils/jsoncpp.cpp:1842-1880 | a backslash in front of any other char, or of nothing, makes the string an error |
| JsonTokens.FourHexDigits | server/utils/jsoncpp.cpp:1921-1943 | a unit is four hexadecimal digits, the first counting most |
| JsonTokens.HexDigits | server/utils/jsoncpp.cpp:1928-1936 | a char counts d if and only if it is the digit d in either case |
| JsonTokens.SurrogatePair | server/utils/jsoncpp.cpp:1893-1914 | a high surrogate without another `\u` escape behind it is an error, and otherwise takes the low ten bits of that one, whatever it is |
| JsonTokens.EscapeTable | server/utils/jsoncpp.cpp:4303-4346 | what the writer makes of every char |
| JsonSpellings.SpelledRead | server/utils/jsoncpp.cpp:1834-1885 | a string whose chars are spelled plain, by escapes of one char or by hexadecimal ones, mixed in any way, reads as that string, anywhere in a document |
| JsonStrings.Utf8RoundTrip | server/utils/jsoncpp.cpp:104-130 | a strict UTF-8 reader gets every scalar value back from codePointToUTF8 |
| JsonLexer.ReadToken | server/utils/jsoncpp.cpp:1394-1492 | every token lies between the cursor and the end, only the end of the stream consumes nothing, and a string token has both its quotes |
| JsonLexer.Recover | server/utils/jsoncpp.cpp:1955-1966 | error recovery ends on every document, with the cursor inside it |
| JsonTokens.NumberIsOneToken | server/utils/jsoncpp.cpp:1575-1600 | a digit or a minus, digits, a point with digits or none, and an exponent or none are one number token, up to the first char that can belong to none of them |
| JsonTokens.StringTokens | server/utils/jsoncpp.cpp:1601-1624 | a string of either kind ends behind the first quote of its kind with an even number of backslashes in front, and is an error without one |
| JsonTokens.StarComment | server/utils/jsoncpp.cpp:1550-1557 | a comment of this kind ends behind the first star-slash, and is an error without one |
| JsonTokens.LineComment | server/utils/jsoncpp.cpp:1559-1573 | a comment of the other kind ends behind the first line feed, return or both, or with the document |
| JsonTokens.Words | server/utils/jsoncpp.cpp:1438-1476 | null, true and false for every reader; NaN and the infinities exactly for one that allows them |
| JsonTokens.NoToken | server/utils/jsoncpp.cpp:1394-1492 | any char that begins no token is an error of that one char |
| JsonBlanks.BlanksSkipped | server/utils/jsoncpp.cpp:1494-1502 | any spaces, tabs, returns and line feeds in front of a token leave it the same token |
| JsonBlanks.OnlyBlanksSkipped | server/utils/jsoncpp.cpp:1494-1502 | any other char is the first one of the token |
| JsonStreams.ParseSeesTokens | server/utils/jsoncpp.cpp:1233-1279 | two documents with the same tokens, spelled the same, parse the same, good or bad, with every feature set |
| JsonBlanks.BlanksIgnored | server/utils/jsoncpp.cpp:1233-1279 | a printed document with any blanks between its tokens parses as it does without them, for every style, feature set and value |
| JsonComments.CommentsInFront | server/utils/jsoncpp.cpp:1384-1392 | with a comment of either kind in front, any document, good or bad, parses as without it if comments are allowed, and is refused otherwise |
| JsonMembers.GatheredValues | server/utils/jsoncpp.cpp:1632-1686 | of members in any order the object holds exactly their keys, each with the value of its last member |
| JsonMembers.RepeatedKeysExactly | server/utils/jsoncpp.cpp:1626-1686 | for members in any order, every style and feature set: parse accepts the printed object if and only if the nesting fits and, where that is asked for, no key is repeated; then it holds what GatheredValues says |
| JsonOptions.NumericKey | server/utils/jsoncpp.cpp:1644-1648 | an integer in front of a colon is a key, its own text, exactly for a reader that allows it |
| JsonOptions.RealRead | server/utils/jsoncpp.cpp:1786-1821 | a number with a fraction or an exponent is read as the double of its whole text, or fails where sscanf does, at any nesting |
| JsonOptions.ExtraExactly | server/utils/jsoncpp.cpp:1256-1262 | behind a printed value, text that begins with a mark fails exactly with failIfExtra_, and text that begins with a char that begins no token never |
| JsonOptions.LengthLimits | server/utils/jsoncpp.cpp:2538-2560 | a string of up to 2147483642 bytes is kept whole, and a longer one throws |
| JsonReading.KeyAt | server/utils/jsoncpp.cpp:1632-1661 | in front of a member the cursor stays inside the document, a key moves it on, and a key that is too long throws |
| JsonReading.ReadValue | server/utils/jsoncpp.cpp:1281-1382 | terminates on every document and feature set, recovery and un-read separators included, with the cursor never going back behind its start or past the end |
| JsonReading.ReadMember | server/utils/jsoncpp.cpp:1632-1686 | every turn of the member loop ends it or moves the cursor on |
| JsonReading.ReadElement | server/utils/jsoncpp.cpp:1699-1722 | every turn of the element loop ends it or moves the cursor on, even when a dropped null was un-read |
| JsonReaders.OurReader.Match | server/utils/jsoncpp.cpp:1504-1513 | moves on exactly when the whole pattern stands at the cursor |
| JsonReaders.OurReader.ReadString | server/utils/jsoncpp.cpp:1601-1624 | stops behind the first unescaped quote, or fails at the end |
| JsonReaders.OurReader.ReadNumber | server/utils/jsoncpp.cpp:1575-1600 | the lagging cursor ends where the number ends |
| JsonReaders.OurReader.ReadComment | server/utils/jsoncpp.cpp:1515-1573 | both comment forms end where specified, and an unfinished one fails |
| JsonReaders.OurReader.ReadToken | server/utils/jsoncpp.cpp:1394-1492 | returns the specified token and leaves the cursor at its end |
| JsonReaders.OurReader.RecoverFromError | server/utils/jsoncpp.cpp:1955-1966 | leaves the cursor where recovery ends |
| JsonReaders.OurReader.ReadValue | server/utils/jsoncpp.cpp:1281-1382 | the moving cursor, the nesting depth, the exception and the value left in the node are those of the specification |
| JsonReaders.OurReader.ReadObject | server/utils/jsoncpp.cpp:1626-1686 | the same for objects, with the members in the order of their keys |
| JsonReaders.OurReader.ReadArray | server/utils/jsoncpp.cpp:1688-1724 | the same for arrays |
| JsonReaders.OurReader.Parse | server/utils/jsoncpp.cpp:1233-1279 | the verdict, the root and the exception for every document |
| JsonWriter.FastWriter.Write | server/utils/jsoncpp.cpp:4365-4371 | the document is the printed form of the root in every style, whatever it held before |
| JsonWriter.FastWriter.WriteValue | server/utils/jsoncpp.cpp:4373-4425 | appends the printed form of a value of any nesting to the document |
| JsonRoundTrip.QuotedEnd | server/utils/jsoncpp.cpp:1601-1611 | the scanner stops exactly at the closing quote of a printed string |
| JsonRoundTrip.ValueRead | server/utils/jsoncpp.cpp:1281-1382 | readValue on printed text anywhere in a document gives the value back and stops right behind it, or throws when the nesting does not fit, if the reader allows the gaps the text has |
| JsonRefusals.ValueGap | server/utils/jsoncpp.cpp:1357-1368 | a gap left by a dropped null, at any depth, makes a reader without allowDroppedNullPlaceholders_ refuse the value, through every level of recovery |
| JsonDocuments.PrintedTextParses | server/utils/jsoncpp.cpp:1233-1279 | for every style, feature set and value: parsing what write prints refuses a dropped null root and a gap that is not allowed; else it throws exactly when the nesting exceeds stackLimit_ and otherwise returns the value, its integers retagged, with failure only for a scalar under a strict root |
| JsonDocuments.GivenBackExactly | server/utils/jsoncpp.cpp:1233-1279 | parse accepts with the same value, up to the integer tag, if and only if the nesting fits, a strict root is no scalar, and, where nulls are dropped, the value is not null, holds no array of one null and has no gap the reader does not allow |
| JsonDocuments.SameUnlessNullLost | server/utils/jsoncpp.cpp:4373-4425 | of the value that an accepting parse returns: it is the same, up to the integer tag, if and only if no array of one null lost its null |
| JsonTruncation.ValueCut | server/utils/jsoncpp.cpp:1281-1382 | reading a printed value that breaks off anywhere, inside a key, an escape, a word or in front of a separator, in every style and with all features fails through every level of recovery, or is a number that consumed all there was |
| JsonTruncation.CutTextRefused | server/utils/jsoncpp.cpp:1233-1279 | no proper prefix of a printed array, object, string, boolean or null is ever accepted, for every style and feature set |
| JsonLeniency.TrailingCommaExactly | server/utils/jsoncpp.cpp:1632-1641 | for every printable member, style and feature set: parse accepts `{"key":value,}` if and only if the key is empty and the nesting fits, and then the object has that member |
| JsonLeniency.SeparatorExactly | server/utils/jsoncpp.cpp:1668-1684 | for two members with different keys, any feature set and any single char that is a token of its own and no closing brace: parse accepts it as their separator if and only if it is a comma or a comment stands in front of it, and the nesting fits; then the object has both |
| JsonStability.PutLookup | server/utils/jsoncpp.cpp:3469-3486 | inserting a member gives its key that value and leaves every other key as it was |
| JsonStability.PutSorted | server/utils/jsoncpp.cpp:3469-3486 | the keys stay in strict order |
| JsonStability.ValueFine | server/utils/jsoncpp.cpp:1281-1382 | whatever the document, a successful readValue gives its depth back and leaves a value with ordered keys, canonical tags, bounded strings and nesting within the limit |
| JsonStability.ParsedPrintsAndParses | server/utils/jsoncpp.cpp:4365-4425 | any successfully parsed real-free root, printed in any style that keeps nulls, parses to itself |
| ArduPower.Positions | legacy/daemon/devices/ArduPowerDevice.py:61-73 | the position of the high bits of every channel, the last unpaired one included |
| ArduPower.Shifts | legacy/daemon/devices/ArduPowerDevice.py:77-88 | the shift of every channel |
| ArduPower.Unpack | legacy/daemon/devices/ArduPowerDevice.py:120-127 | the running index reads the low byte of every channel, so the loop yields the unpacked values |
| ArduPower.UnpackPacked | legacy/daemon/devices/ArduPowerDevice.py:61-129 | for every channel count and all 10-bit values, unpacking the packed frame returns the values |
| ArduPower.PackedIsMarkedOnce | legacy/daemon/devices/ArduPowerDevice.py:101-114 | in a packed frame only the first byte has its top bit set |
| ArduPower.ReadWindow | legacy/daemon/devices/ArduPowerDevice.py:96-117 | over the bytes: one turn goes on behind a window without a byte of 128 or more; from the first such byte on it completes a window, and takes it exactly if every other byte of it is below 128 |
| ArduPower.BytesTurn | legacy/daemon/devices/ArduPowerDevice.py:96-117 | the same of the specification of a turn |
| ArduPower.SmallFrames | legacy/daemon/devices/ArduPowerDevice.py:61-129 | the values of two channels in three bytes and of one in two, bit for bit |
| ArduPower.Read | legacy/daemon/devices/ArduPowerDevice.py:94-131 | the loop yields the readings of exactly the windows it accepts, in order |
| ArduPower.ReadingsAreYielded | legacy/daemon/devices/ArduPowerDevice.py:94-131 | wherever in a run of frames reading begins, it yields exactly the readings of all frames that begin at or after that point |
| Framing.StartsMarked | legacy/daemon/devices/ArduPowerDevice.py:101-117 | on any marks, every window that is taken is marked in front and nowhere else, and the windows do not overlap |
| LostBytes.ReadingsOfWindows | legacy/daemon/devices/ArduPowerDevice.py:94-131 | of any bytes: every reading is that of a window whose first byte alone is 128 or more, and the windows follow one another |
| LostBytes.OnlySentReadings | legacy/daemon/devices/ArduPowerDevice.py:94-131 | if bytes of frames are lost, but no first one, every reading is that of a whole frame as it was sent, in the order of the frames |
| LostBytes.MixedReading | legacy/daemon/devices/ArduPowerDevice.py:94-131 | two frames of which bytes were lost, a first one included, give a reading that was not sent |
| Framing.Resynchronises | legacy/daemon/devices/ArduPowerDevice.py:101-117 | a read that begins inside a frame drops the rest of it and stays aligned from the next one on |
| Status.IntRoundTrip | server/server.hpp:150-153 | the four bytes of every 32-bit int read back as the int |
| Status.LowestByteFirst | server/server.hpp:150-153 | the byte order and the form of negative numbers |
| Status.SampleDump | server/info.cpp:71-102 | the order of the parts of a dump, written out |
| Status.SampleParts | server/info.cpp:86-100 | a line, of a PDU or not, and a counter, byte by byte |
| Status.SampleHeader | server/info.cpp:73-84 | the front of a device, of a PDU or not, byte by byte |
| Status.Socket.ReceiveInt | client/pm_info:12-25 | on any stream: takes an int of four bytes, or fails where there are fewer |
| Status.CmdStatus | server/info.cpp:71-102 | appends exactly the dump of the inventory to the stream |
| Status.DeviceTaken | client/pm_info:35-87 | a device reads back as sent, and with the counters option off the entries of its counters are left in the stream |
| Status.ConsumedExactly | client/pm_info:72-85 | the stream is left right behind a device if and only if the option is on or it has no counters |
| Status.Show | client/pm_info:35-89 | on any stream, the loops read exactly what the specification reads, with and without the option, or end where a length is negative or the stream too short |
| Status.ShowExactly | client/pm_info:35-89 | on the dump of any inventory, PDU and other devices mixed, shows exactly that inventory and consumes exactly the dump, if and only if the counters option is on or no device has counters |
| Status.NextDeviceMisread | client/pm_info:41-87 | behind a device whose one counter has id 0, no address and no lines, every device with a name is shown as one without name, frequency and lines |

## Left out

- Sockets, threads, locks, condition variables, daemonising, signals and logging: messages are sequences and every operation is one atomic step, so races on `nextid` and a sample torn between two lines are outside the model.
- The lock-free queue and the out-of-core vectors behind the buffers.
- `Server.connection`, `Info.list_devices`, `Info.read_device` and the other plain senders, and the drivers other than the ArduPower frame arithmetic.
- The copy of the counter kept in `counter_map`: only its presence under its id is modelled.
- A counter on an unknown device: looking the device up by name.
- Negative frequencies beyond the constructor: runs have natural frequencies, and what a stride below one does to GET is not modelled.
- RunLaws.ReferenceCounts: speaks of runs in which a connection closes. A legacy client whose socket raises an error exits without `destroy`; and in the C++ server the `send` in the catch block of `run` (server/counter.cpp:297-300) can throw on a reset connection, out of the constructor, so that `~Counter` does not run: in both the counter stays registered.
- Widths of the reply's counts: lengths and offsets are unbounded where the source has 32- and 64-bit integers.
- Calibration, units, times and energies: samples are reals, and the Time column of the printers is not modelled.
- The power list that `ArduPowerDevice.read` yields is one list reused for every reading; the model yields a new sequence of raw 10-bit values.
- LineSpec.SetLines: does not model the four-char buffer of the numbers, which a three-digit number overruns by one, nor what an overrun does.
- TextLaws.TextPrintsExactly: is about all sets at once; single sets are those of `TextLaws.SingleSetExactly`, on replies that carry what they promise.
- EndToEnd.TextShowsProduced: holds under the condition of `TextLaws.TextPrintsExactly`, which is exact over all samples; for some samples the printer is right by chance without it.
- PrintColumns.FindColumns: takes masks of 128 lines, as `line_t` has them.
- Printers.PrintText: requires watts_sets that never decrease, as both servers send them; negative intervals are not modelled.
- Status.Show: a text that the stream cuts short is returned short, as `recv` does at the end of a stream; packets that arrive late are not modelled.
- JSON reals: a real is kept as its text; which texts `sscanf` takes and how a double prints are parameters of the model, and the laws are about real-free values.
- JsonNumbers.DecodeNumber: models `Reader::decodeNumber`; `OurReader` computes the limit of a negative number through a signed overflow and is taken to mean the same limit.
- JsonReaders.OurReader.ReadValue: returns the value it leaves in the current node instead of writing through the stack `nodes_`; the list of error messages, offsets and comments attached to values are not modelled.
- JsonReading.ReadArray: arrays of more than 2^31 - 1 elements.
- JSON strings are sequences of chars of which the bytes 0 to 255 are a part; invalid UTF-8 passes through as in the source.
- Styled writers, `Path`, and the older `Reader` class besides its number decoding.
- Paraver, OTF, stdout and energy printers and the trace plugins, which repeat the loops of the two printers.
