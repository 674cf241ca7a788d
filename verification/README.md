# Verified models of go-sqlite3

This project models five parts of the go-sqlite3 repository in Dafny and proves what each of them is for.
`dafny verify dfyconfig.toml` checks all of it. SQLite itself is not modelled: the calls into it that matter here
are given small contracts, named below where they are used.

**The picojson reader and printer** (`_example/mod_vtable/picojson.h`).
`JsonInput.Input` is the one-byte push-back cursor with its four fields, and `JsonParser` holds the `_parse*`
functions that drive it. Each is proved to do what a function of `JsonReader` says about the bytes not yet read, so
that further proofs need no cursor. `JsonGrammar` then defines the accepted language on its own, as sentences with a
text and a meaning, and `JsonAccepts` proves that the reader accepts exactly those sentences and builds exactly what
they mean. `JsonRoundTrip` proves that the printer (`JsonPrinter`) writes one sentence for every value, that parsing
undoes printing whatever white space is put between the tokens, and that different values print differently.
`JsonContexts` compares the two parse contexts. `Utf8`, `JsonLaws`, `JsonUtf8` and `JsonUtf8Texts` cover `\u` escapes,
surrogate pairs and UTF-8. `JsonCharacters` says in characters what the tables say in numbers, and `JsonFailures` where
the reader stops in a text it refuses. `strtod` and `%.17g` are parameters (`JsonValue.Libc`). A theorem about numbers
says which of their answers it needs, and `JsonLaws.ExactIsPossible` shows that this can be met.

**The unlock-notify protocol** (`sqlite3_opt_unlock_notify.go`, `.c`).
`UnlockTable` has the handle table, the callback and the wait as objects. `UnlockNotify` has any number of waits
and callbacks as a machine of small interleaved steps; SQLite fires each accepted registration at most once, alone or
in a batch, possibly before the registering call has returned. `StepBlocking` has the retry loops.

**Binding and scripts** (`sqlite3.go`).
`Binder` has `bind`, which writes index rows and ordinals in place; `Reuse` has `execSync` and `query` on a statement
used any number of times; `Columns` has the reading of a row, and what a bound value comes back as; `Script` has `exec`
on a whole script. SQLite is a parameter: it cuts the text into pieces, each tail strictly shorter than its text, and
answers each step.

**Lifecycles** (`sqlite3.go`, `callback.go`).
`Lifecycle` interleaves Stmt.Close, Rows.Close, Rows.Next and Conn.Close on any number of threads; `LifecycleCalls`
says what each does when it is left alone, and why a statement gets closed. `Cancellation` is the
handshake of worker, caller and interrupt. `Aggregates` multiplexes aggregate states through a counter. `Handles` is
the global handle table.

**Planning and conversion** (`sqlite3_opt_vtable.go`, `convert.go`).
`VTable` proves that what a plan numbers is what the scan receives. `Convert` has `convertAssign` on integers, floats,
texts, byte slices, bools, interfaces and pointers to any depth.

Where the code and its comments or documentation disagree, the model follows the code:

- The iterator that picojson's entry point returns counts a pushed-back byte as read. `JsonRoundTrip.IteratorExactIff`
  and, on the text alone, `JsonRoundTrip.IteratorOnText` say exactly when it is right.
- The comment in `exec` says that arguments contained in the slice are not appended again. `Script.AppendRepeatsIff`
  says exactly when they are, and `Script.NamedScript` what that means for repeated names.
- A prepared statement keeps the bindings of its last use. `Reuse.StaleIff` says exactly when one shows through.
- A context whose aggregator constructor failed shares its key with the next one. `Aggregates.BadIff` says exactly when
  that does harm.
- A statement closed after its connection is marked closed but not finalized. `Lifecycle.ClosedIsFinalized` says exactly
  which statements are.
- `convertAssign` promises an error where the copy would lose information. An integer assigned to a float can lose its
  last digits without one; `Convert.FloatExactIff` says exactly when, for either width.
- `exec` answers with its last piece alone, even if that is a comment (`Script.LastPieceAnswers`).
- `Rows.Next` drops a row it has already fetched once it has seen the cancellation (`Cancellation.NextHandshake`).
- A text argument reaches a virtual table's Filter only up to its first NUL (`VTable.ConvertIntactIff`).
- `convertAssign` leaves its destination alone when it fails, unless the destination is a pointer
  (`Convert.FailureWrites`).

## Model

| member | source | states |
|---|---|---|
| JsonInput.Input.FieldsFollow | _example/mod_vtable/picojson.h:361-420 | in every reachable cursor state the four fields, the line number included, are determined by the bytes not yet read and by whether the last byte is taken, pushed back or missing |
| JsonInput.Input.GetC | _example/mod_vtable/picojson.h:369-383 | takes the next byte of the logical remainder, or -1 at its end, and keeps the remainder a suffix of the input and the line count exact |
| JsonInput.Input.UngetC | _example/mod_vtable/picojson.h:384-389 | under the condition of the code's own assertion, gives back the remainder there was before the last getc |
| JsonInput.Input.SkipWs | _example/mod_vtable/picojson.h:392-400 | terminates with the longest white space prefix gone and the byte behind it pushed back |
| JsonInput.Input.Expect | _example/mod_vtable/picojson.h:401-408 | consumes white space and the byte if it is there, only the white space otherwise |
| JsonInput.Input.Match | _example/mod_vtable/picojson.h:409-419 | consumes the pattern, or its common prefix with the input |
| JsonParser.ParseQuadHex | _example/mod_vtable/picojson.h:422-441 | four hex digits of either case give their number, anything else -1 with the offending byte pushed back |
| JsonParser.SlashU | _example/mod_vtable/picojson.h:454-457 | the link between two surrogates, with the backslash lost when no u follows it |
| JsonParser.AppendUtf8 | _example/mod_vtable/picojson.h:465-480 | appends the UTF-8 encoding of the code point |
| JsonParser.ParseCodepoint | _example/mod_vtable/picojson.h:443-482 | one code unit or a surrogate pair, appended as UTF-8, or failure with the cursor left where the reader says |
| JsonParser.ParseString | _example/mod_vtable/picojson.h:484-520 | the cursor loop computes the reader's string function, for both kinds of output |
| JsonParser.ParseNumber | _example/mod_vtable/picojson.h:560-575 | hands strtod the longest run of number bytes and pushes the next byte back |
| JsonParser.ParseArray | _example/mod_vtable/picojson.h:522-537 | the item loop terminates and computes the reader's array function |
| JsonParser.ParseObject | _example/mod_vtable/picojson.h:539-558 | the member loop terminates and computes the reader's object function |
| JsonParser.ParseKey | _example/mod_vtable/picojson.h:547-552 | reads a key and its colon |
| JsonParser.Parse | _example/mod_vtable/picojson.h:577-612 | the whole recursion terminates on every input; verdict, value, remainder and cursor are those of the reader |
| JsonParser.ReportNear | _example/mod_vtable/picojson.h:718-725 | appends the printable bytes of the rest of the line, and stops behind it |
| JsonParser.ParseText | _example/mod_vtable/picojson.h:712-728 | the entry point: the message is empty exactly on success and otherwise names the line and what is left of it; says which iterator is returned in both cases |
| JsonCharacters.Message | _example/mod_vtable/picojson.h:716-716 | the words of the message |
| JsonCharacters.NearLine | _example/mod_vtable/picojson.h:718-725 | the quote is made of the printable bytes of the line, and ends at the line feed |
| JsonReader.Str | _example/mod_vtable/picojson.h:484-520 | every accepted string consumes at least a byte |
| JsonReader.Parse | _example/mod_vtable/picojson.h:577-612 | every accepted value consumes at least a byte, at every depth, which is why the recursion ends |
| JsonAccepts.AcceptsIff | _example/mod_vtable/picojson.h:577-612 | the reader accepts a text exactly if a sentence of the grammar begins it |
| JsonAccepts.NodeFound | _example/mod_vtable/picojson.h:577-612 | soundness: an accepted text is white space, a sentence and the bytes left, and the value built is what the sentence means |
| JsonAccepts.SentenceReads | _example/mod_vtable/picojson.h:577-612 | completeness: on every sentence, whatever follows, the reader gives its meaning, leaves exactly what follows, and leaves the cursor as told |
| JsonAccepts.BodyFound | _example/mod_vtable/picojson.h:484-520 | an accepted string body is a sequence of raw bytes, short escapes, single units and surrogate pairs, and the string is what they stand for |
| JsonAccepts.BodyReads | _example/mod_vtable/picojson.h:484-520 | every such body is accepted |
| JsonAccepts.EntriesFound | _example/mod_vtable/picojson.h:546-557 | an accepted object is its members, in the text's order, put into the map one after the other |
| JsonAccepts.LastEntryWins | _example/mod_vtable/picojson.h:667-671 | of several members with one key, however spelled, the last counts, and nothing is found under a key no member has |
| JsonAccepts.ObjectFinds | _example/mod_vtable/picojson.h:539-558 | so for every accepted object text, what is found under a key is the value of its last member of that key |
| JsonCharacters.NumbersAreRead | _example/mod_vtable/picojson.h:560-575 | every number of the JSON grammar, with a fraction and an exponent of either case and sign, is handed to strtod whole and becomes its answer, or is refused if strtod does not take it whole; any byte ends it that is no digit, sign, point or e |
| JsonCharacters.NumbersStart | _example/mod_vtable/picojson.h:578-611 | a value starts with one of the listed characters, and otherwise nothing is consumed |
| JsonCharacters.Words | _example/mod_vtable/picojson.h:587-589 | null, true and false, letter by letter, printed and read |
| JsonCharacters.WhiteSpace | _example/mod_vtable/picojson.h:392-400 | space, tab, line feed and carriage return, and nothing else, are white space |
| JsonCharacters.ShortEscapes | _example/mod_vtable/picojson.h:496-506 | the eight letters behind a backslash and what they stand for, read and printed |
| JsonCharacters.OtherLetters | _example/mod_vtable/picojson.h:512-514 | any other letter but u is refused, and is gone |
| JsonCharacters.RawBytes | _example/mod_vtable/picojson.h:485-517 | a byte stands for itself exactly if it is no control character, quote or backslash |
| JsonCharacters.HexDigits | _example/mod_vtable/picojson.h:428-437 | the hex digits of both cases and their values, and no others |
| JsonCharacters.Clef | _example/mod_vtable/picojson.h:443-482 | the pair D834 DD1E is read as the four bytes of U+1D11E |
| JsonFailures.MatchFails | _example/mod_vtable/picojson.h:409-419 | a word is consumed up to the first byte that differs, which is pushed back |
| JsonFailures.QuadHexFails | _example/mod_vtable/picojson.h:422-441 | hex digits are consumed up to the first byte that is none, which is pushed back |
| JsonFailures.SlashUStops | _example/mod_vtable/picojson.h:454-457 | what is left between two surrogates in each case, the lost backslash included |
| JsonFailures.StrFails | _example/mod_vtable/picojson.h:484-520 | a refused string is legal characters up to the end, a control character or an escape that is none; says what is left |
| JsonFailures.ItemsFail | _example/mod_vtable/picojson.h:530-536 | a refused array is legal items up to a refused value, or up to a value with neither comma nor bracket behind it; says what is left |
| JsonFailures.EntriesFail | _example/mod_vtable/picojson.h:546-557 | the same for the members of a refused object |
| JsonFailures.KeyFails | _example/mod_vtable/picojson.h:547-552 | the same for a refused key and its colon |
| JsonFailures.ValueFails | _example/mod_vtable/picojson.h:577-612 | a refused value: inside a word or a string the remainder is that of the word or the string |
| JsonGrammar.NodeAppends | _example/mod_vtable/picojson.h:577-612 | the text of a sentence does not depend on the bytes behind it |
| JsonPrinter.Output.SerializeStr | _example/mod_vtable/picojson.h:288-314 | appends the quoted and escaped string, byte by byte |
| JsonPrinter.Output.SerializeArray | _example/mod_vtable/picojson.h:321-333 | the loop with its leading commas writes the array's text |
| JsonPrinter.Output.SerializeObject | _example/mod_vtable/picojson.h:334-348 | the loop writes the object's text, members in key order |
| JsonPrinter.Output.SerializeValue | _example/mod_vtable/picojson.h:316-353 | appends the value's text to whatever was written before |
| JsonRoundTrip.SerializeIsCanonical | _example/mod_vtable/picojson.h:316-353 | the printer writes the sentence of the value that has no white space |
| JsonRoundTrip.PrintedByte | _example/mod_vtable/picojson.h:291-311 | the escape printed for a byte is one the reader accepts, and stands for that byte |
| JsonCharacters.PrintedBytes | _example/mod_vtable/picojson.h:303-311 | a control character without a letter is printed with two lower-case hex digits, any other byte as it is |
| JsonCharacters.Punctuation | _example/mod_vtable/picojson.h:316-353 | brackets, braces, commas, colons and quotes as characters |
| JsonCharacters.PrintedNumbers | _example/mod_vtable/picojson.h:267-273 | integers are printed without an exponent exactly below 9007199254740992 in magnitude |
| JsonRoundTrip.SpacedRoundTrip | _example/mod_vtable/picojson.h:263-353 | parsing a printed value with any white space between its tokens gives the value and leaves exactly the bytes behind it |
| JsonRoundTrip.IntegerTrees | _example/mod_vtable/picojson.h:263-282 | the same for all trees whose numbers are integers below 2^53, if strtod reads those exactly |
| JsonRoundTrip.RoundTrip | _example/mod_vtable/picojson.h:355-359 | the same for the printer's own text |
| JsonRoundTrip.SerializePrefixFree | _example/mod_vtable/picojson.h:316-353 | no text is a proper beginning of another value's text, a number's going on aside |
| JsonRoundTrip.SerializeInjective | _example/mod_vtable/picojson.h:316-353 | different values have different texts |
| JsonRoundTrip.Reprint | _example/mod_vtable/picojson.h:712-733 | whatever text was accepted, printing its value and parsing that gives the value again |
| JsonRoundTrip.IteratorExactIff | _example/mod_vtable/picojson.h:712-728 | for every accepted text, the returned iterator is the end of the value unless the value is a number with text behind it, and is then one byte too far |
| JsonRoundTrip.IteratorOnText | _example/mod_vtable/picojson.h:712-728 | the same as a condition on the text: for every accepted text the iterator is right unless the text, behind its white space, starts with a digit or a minus and is longer than its run of number bytes |
| JsonRoundTrip.IteratorBehindPrinted | _example/mod_vtable/picojson.h:712-728 | the same for a printed value with anything behind it |
| JsonRoundTrip.IteratorTooFar | _example/mod_vtable/picojson.h:712-728 | the text `1]` is one for which it is too far |
| JsonLaws.IntegersRead | _example/mod_vtable/picojson.h:267-273 | an integer below 2^53 prints as a number token that reads back |
| JsonLaws.ExactIsPossible | _example/mod_vtable/picojson.h:573-574 | the assumption about strtod can be met |
| JsonLaws.EscapedScalar | _example/mod_vtable/picojson.h:443-482 | a scalar of the basic plane written as one escape becomes its UTF-8 encoding |
| JsonLaws.EscapedPair | _example/mod_vtable/picojson.h:450-463 | a supplementary scalar written as its surrogate pair becomes its UTF-8 encoding |
| JsonLaws.CodepointAccepts | _example/mod_vtable/picojson.h:443-464 | exactly those two forms are accepted: lone, repeated and misordered surrogates are refused |
| JsonContexts.ParseAlike | _example/mod_vtable/picojson.h:631-703 | for every text the two contexts accept or reject alike and leave the same bytes in the same way |
| JsonContexts.ItemsAlike | _example/mod_vtable/picojson.h:522-537 | the same for the items of an array, whatever was collected before |
| JsonContexts.MembersAlike | _example/mod_vtable/picojson.h:539-558 | the same for the members of an object |
| JsonContexts.StrAlike | _example/mod_vtable/picojson.h:679-690 | the same for strings, with and without an output |
| JsonContexts.SameCursor | _example/mod_vtable/picojson.h:631-703 | so cur, last_ch, ungot and line agree after the two runs |
| JsonContexts.ParseOrdered | _example/mod_vtable/picojson.h:667-671 | duplicate and unsorted keys included, the value built is key-ordered throughout |
| JsonValue.FindPut | _example/mod_vtable/picojson.h:667-671 | assigning to a key of an object is seen under that key and under no other |
| JsonCharacters.LessIff | _example/mod_vtable/picojson.h:667-671 | the order of keys: the first differing byte decides, a proper prefix comes first |
| JsonValue.PutKeepsOrder | _example/mod_vtable/picojson.h:667-671 | assigning keeps the object ordered by key |
| JsonUtf8.StrKeepsUtf8 | _example/mod_vtable/picojson.h:484-520 | from UTF-8 text only UTF-8 strings are read, and UTF-8 is left |
| JsonUtf8Texts.ParseKeepsUtf8 | _example/mod_vtable/picojson.h:577-612 | from a UTF-8 text only UTF-8 keys and strings are read, at every depth, and UTF-8 is left |
| JsonUtf8Texts.PrintedUtf8Iff | _example/mod_vtable/picojson.h:288-353 | the printed text is UTF-8 exactly if every key and string in the value is |
| Utf8.DecodeEncode | _example/mod_vtable/picojson.h:465-480 | decoding the bytes appended for a scalar gives the scalar, whatever follows |
| Utf8.EncodeDecode | _example/mod_vtable/picojson.h:465-480 | they are the only bytes that decode to it, so none shorter exist |
| Utf8.CombineUnits | _example/mod_vtable/picojson.h:462-463 | joining the two units of a scalar gives the scalar |
| Utf8.UnitsCombine | _example/mod_vtable/picojson.h:462-463 | and every pair of units is the pair of the scalar it is joined to |
| Utf8.UnitKinds | _example/mod_vtable/picojson.h:447-449 | a code unit is a scalar, a first or a second surrogate, and only one of these |
| UnlockTable.Table.Add | sqlite3_opt_unlock_notify.go:35-42 | a fresh handle; no live entry is overwritten |
| UnlockTable.Table.Remove | sqlite3_opt_unlock_notify.go:44-48 | takes that entry and no other |
| UnlockTable.Table.Get | sqlite3_opt_unlock_notify.go:50-58 | the channel under the handle, or the panic |
| UnlockTable.Callback | sqlite3_opt_unlock_notify.go:61-69 | wakes exactly the waiters of the batch, once each, and no send blocks or meets a closed channel |
| UnlockTable.Wait | sqlite3_opt_unlock_notify.go:72-93 | returns SQLite's code and leaves no table entry behind, rejected or not |
| UnlockNotify.StepKeepsInv | sqlite3_opt_unlock_notify.go:35-93 | every step of every participant keeps the invariant that each wake-up is in exactly one place |
| UnlockNotify.RunKeepsInv | sqlite3_opt_unlock_notify.go:35-93 | so every reachable state has it |
| UnlockNotify.Safety | sqlite3_opt_unlock_notify.go:35-93 | over every interleaving: no missing key, no send that blocks or meets a closed channel, no live entry overwritten, and the table holds exactly the calls between add and remove |
| UnlockNotify.NoLostWakeUp | sqlite3_opt_unlock_notify.go:61-93 | when nothing can move, the calls that have not returned are exactly those SQLite has not fired |
| UnlockNotify.AllReturn | sqlite3_opt_unlock_notify.go:72-93 | when everything accepted was fired, all calls have returned, with OK exactly if fired, the table is empty and every channel closed and drained |
| UnlockNotify.ReturnsCode | sqlite3_opt_unlock_notify.go:86-92 | over every run, a call returns the code SQLite rejected it with, or OK after it received |
| UnlockNotify.EnvironmentIsFree | sqlite3_opt_unlock_notify.go:86-90 | SQLite may accept or reject any registration asked for, and fire accepted ones in any batch |
| UnlockNotify.StepUsesWork | sqlite3_opt_unlock_notify.go:61-93 | every step but a new call uses up work |
| UnlockNotify.RunBounded | sqlite3_opt_unlock_notify.go:61-93 | n calls allow at most 11 n steps, so every run comes to rest |
| StepBlocking.Blocking | sqlite3_opt_unlock_notify.c:13-36 | the code returned is that of the last step, not a shared-cache lock, or of a failed wait; between two steps lie one successful wait and one reset; the table is left as it was |
| StepBlocking.RowBlocking | sqlite3_opt_unlock_notify.c:38-63 | the same, and both out-parameters are written on every return |
| StepBlocking.PrepareBlocking | sqlite3_opt_unlock_notify.c:65-85 | the same loop without a reset |
| Binder.Bind | sqlite3.go:1910-1976 | on a new or reused statement, the two loops write what the specification says, fail exactly if one of its writes is refused, leave the writes before it in place, and overwrite the ordinals of named arguments |
| Binder.FillIndices | sqlite3.go:1916-1928 | the index rows and the ordinals written in place |
| Binder.WriteRow | sqlite3.go:1931-1973 | one value goes to every index of its row |
| Binder.LastWriterWins | sqlite3.go:1930-1974 | every parameter holds the value of the last argument that targets it, and what it held before if none does |
| Binder.NamedTargets | sqlite3.go:1917-1927 | the parameters :n, @n and $n are the targets of arguments named n and of no other named one |
| Binder.NamedBinding | sqlite3.go:1916-1974 | repeated named arguments included, a parameter ends bound to the argument of its name, whatever it held before |
| Binder.PositionalBinding | sqlite3.go:1916-1974 | positional arguments fill the parameters in order, whatever they held before |
| Columns.ReadRow | sqlite3.go:2195-2261 | the loop over the columns converts each by its type and declared type |
| Columns.ReadsBackIff | sqlite3.go:1936-1969 | what is bound reads back as it was exactly if it is no nil blob and no time, and truth values and no integers meet a column declared boolean; says what the others become |
| Columns.PositionalReadsBack | sqlite3.go:1930-1974 | through the whole binding, a column showing a parameter reads the argument of its place |
| Columns.NamedReadsBack | sqlite3.go:1930-1974 | and, with names, the argument of its name |
| Binder.NamedSucceeds | sqlite3.go:1970-1972 | binding named arguments fails only for a value that is too long |
| Binder.BindSucceeds | sqlite3.go:1970-1972 | so does binding positional arguments with a place each, and any mixture |
| Reuse.ExecSync | sqlite3.go:2071-2088 | binds, steps with what is bound, and clears the bindings on both error paths but not otherwise |
| Reuse.Query | sqlite3.go:1990-2006 | binds, and leaves a binding that fails half way as it is |
| Reuse.BindMeans | sqlite3.go:1930-1974 | refused or not, a parameter holds the last value written to it before the first refused write, else what it held before, and NULL if it is the one refused for the length of its value |
| Reuse.OkAlike | sqlite3.go:1970-1972 | whether binding succeeds does not depend on what the statement holds |
| Reuse.StaleIff | sqlite3.go:1910-1914 | a value of an earlier use survives exactly if no argument targets its parameter and it is not NULL |
| Reuse.HistoryBinding | sqlite3.go:2071-2088 | after any history of execs and queries, a parameter holds the last value written to it since the last exec that failed, a NULL for a value that was too long included, and NULL if there is none |
| Reuse.StaleValue | sqlite3.go:1910-1914 | two successful execs after which a parameter still holds a value of the first |
| Script.BuildArgs | sqlite3.go:860-877 | the slice, the append loop and the renumbering |
| Script.RunStatement | sqlite3.go:859-884 | one statement, closed on each of its error paths |
| Script.ExecScript | sqlite3.go:851-896 | terminates, answers as specified, and has closed every statement it prepared on every return path |
| Script.ExecConsumes | sqlite3.go:852-895 | for every script and argument list, each statement gets the arguments behind those of the pieces before it, and the run fails for lack of arguments exactly at the first statement whose running total exceeds the list |
| Script.ExecAnswers | sqlite3.go:852-895 | for every script and argument list, the statements run in order, each at most once; all before the piece the run stops at were bound, ran and answered without an error; the run answers for that piece, with each kind of error or with the result of the last piece |
| Script.PositionalScript | sqlite3.go:851-896 | with positional arguments, statement k is bound to exactly its slice |
| Script.NamedScript | sqlite3.go:860-877 | for every script and argument list, positional, named or mixed, a :n, @n or $n of a statement that runs gets the last appended argument named n; without one, the last of the slice that is named n or stands unnamed at its place; else NULL |
| Script.DistinctScript | sqlite3.go:860-877 | with distinctly named arguments, every :n, @n or $n of every statement that runs is bound to the argument n |
| Script.RepeatedNames | sqlite3.go:869-874 | given a=1, a=2, c=3, a script of two statements runs the first with a=2 and the second with a=1 |
| Script.EveryArgGiven | sqlite3.go:869-877 | every named argument reaches every statement, and nothing else does |
| Script.NeverBindFailed | sqlite3.go:878-882 | if no value is too long, no statement of any script fails in the binding, whatever arguments it is given |
| Script.AppendRepeatsIff | sqlite3.go:866-874 | for every list, says what the loop appends; it is the named arguments not in the slice, as the comment has it, exactly if the slice has no named argument from position na on |
| Script.LastPieceAnswers | sqlite3.go:858-894 | a successful run answers with its last piece alone |
| Aggregates.AggInfo.Agg | sqlite3.go:437-452 | the first call for a context stores the next key and constructs a state; if the constructor fails the key stays stored and the counter unmoved |
| Aggregates.AggInfo.Step | sqlite3.go:454-472 | is a Step of the machine on values, without a row if an argument does not convert, and panics exactly if there is a row and the stored key is not active |
| Aggregates.AggInfo.Done | sqlite3.go:474-493 | is a Done of the machine on values, with its answer, error or not, and panics exactly if the stored key is not active |
| Aggregates.RunKeeps | sqlite3.go:437-493 | after every interleaving, keys of constructed contexts are positive, below next and distinct, and each holds the fold of its own rows |
| Aggregates.Isolated | sqlite3.go:437-493 | any interleaving over any number of contexts gives each the result of folding only its own rows from a fresh state, unless a context is given a row or finalized after its constructor failed |
| Aggregates.ActiveIsUnfinished | sqlite3.go:480-480 | whatever is active belongs to a context not yet Done |
| Aggregates.ActiveEmpties | sqlite3.go:480-480 | nothing is active once every constructed context is Done |
| Aggregates.BadIff | sqlite3.go:438-451 | over every interleaving, some call panics or works on the state of another context if and only if a context is given a row or finalized after its constructor failed |
| Aggregates.SharedKey | sqlite3.go:440-449 | a run in which a context whose constructor failed is given the answer of another, whose state is then gone |
| Handles.Table.NewHandle | callback.go:110-120 | a fresh key; the keys are exactly the addresses in use |
| Handles.Table.Lookup | callback.go:122-126 | the entry under the key, or nothing |
| Handles.Table.DeleteHandles | callback.go:132-141 | in whatever order it visits the map, frees each of the connection's handles once and leaves all others |
| Handles.LiveIsFound | callback.go:107-141 | over every history a live handle is found with the value it was created with |
| Handles.FoundIsLive | callback.go:107-141 | and whatever is found was created by a step still live |
| Handles.DeleteIsolates | callback.go:132-141 | closing one connection takes its handles and no others |
| Cancellation.ExecHandshake | sqlite3.go:2039-2069 | in every run the worker's result is received before return, at most one interrupt is sent and only after cancellation, and the context's error replaces the result exactly if this call sent an interrupt and the result was an interrupt error |
| Cancellation.InterruptTiming | sqlite3.go:2056-2061 | an interrupt is sent once, after cancellation and before the result is received |
| Cancellation.NextHandshake | sqlite3.go:2160-2176 | the same join in Next, which gives the context's error if it saw the cancellation and the worker's result otherwise |
| Cancellation.NeverStuck | sqlite3.go:2048-2066 | no run is stuck before the call has returned |
| Cancellation.CallerBlockedIff | sqlite3.go:2054-2067 | the caller is blocked exactly while the worker runs and either nothing was cancelled or the interrupt is out |
| Cancellation.InnerSelect | sqlite3.go:2057-2061 | the inner select takes a result that is ready and only otherwise goes on to the interrupt |
| Cancellation.CancelInterrupts | sqlite3.go:2056-2062 | a cancellation that finds the worker running is passed on by three steps of the caller that nothing can block |
| Cancellation.Undisturbed | sqlite3.go:2054-2055 | without a cancellation the caller gets the result |
| Cancellation.RunBounded | sqlite3.go:2048-2066 | and none takes more than six steps |
| Lifecycle.StepKeepsInv | sqlite3.go:1772-1792 | every step of every thread keeps the invariant on mutexes, closed flags and finalization |
| Lifecycle.RunKeepsInv | sqlite3.go:2098-2116 | so every reachable state has it |
| Lifecycle.Safety | sqlite3.go:1884-1901 | over every interleaving: each native statement is finalized at most once and never stepped or reset afterwards, and no thread waits for a mutex it holds |
| Lifecycle.FinalizedIff | sqlite3.go:1884-1901 | over every run, a statement is finalized or about to be if and only if its closing thread found the connection open |
| Lifecycle.ClosedIsFinalized | sqlite3.go:1884-1901 | a statement whose closing is over was finalized once if its closing thread read db before Conn.Close set it to nil, and never otherwise |
| Lifecycle.LateCloseNeverFinalizes | sqlite3.go:1891-1893 | once db is nil, a statement neither finalized nor about to be never will be, in any continuation |
| Lifecycle.LateClose | sqlite3.go:1891-1893 | a Stmt.Close begun after that point never finalizes |
| Lifecycle.Unfinalized | sqlite3.go:1891-1893 | a run that leaves a statement closed and never finalized |
| Lifecycle.NoDeadlock | sqlite3.go:2149-2177 | while a thread is at work, some thread can take a step |
| Lifecycle.RunBounded | sqlite3.go:1772-1792 | n calls allow at most 10 n steps of all threads together |
| Lifecycle.AllReturn | sqlite3.go:1884-1901 | where no thread can move, every call that was begun has returned and every mutex is free |
| LifecycleCalls.StmtCloseAlone | sqlite3.go:1884-1901 | left alone, Stmt.Close marks an open statement closed and finalizes it if the connection is open, and does nothing else |
| LifecycleCalls.RowsCloseAlone | sqlite3.go:2098-2116 | left alone, Rows.Close marks open rows closed, then closes the statement if the rows own it and only resets it if they do not |
| LifecycleCalls.NextAlone | sqlite3.go:2149-2191 | left alone, Rows.Next steps an open statement once and resets it if the step failed |
| LifecycleCalls.ConnCloseAlone | sqlite3.go:1772-1783 | left alone, Conn.Close sets db to nil and touches no statement |
| LifecycleCalls.ClosedWasAsked | sqlite3.go:2104-2108 | over every run, a statement is closed only because its Close was called, or the Close of rows that own it |
| LifecycleCalls.OwnersClose | sqlite3.go:2104-2108 | and when no call is under way, closed rows that own their statement have closed it |
| VTable.Constraints | sqlite3_opt_vtable.go:323-343 | the C array as Go values, entry by entry |
| VTable.OrderBys | sqlite3_opt_vtable.go:345-364 | the ORDER BY terms as Go values, entry by entry |
| VTable.NumberUsed | sqlite3_opt_vtable.go:466-473 | the used constraints are numbered from one in order, the others are untouched |
| VTable.CopyString | sqlite3_opt_vtable.go:476-489 | the string and its terminator in a fresh buffer |
| VTable.BestIndex | sqlite3_opt_vtable.go:447-498 | fails exactly on an error or a wrong length and then writes nothing; otherwise numbers, omits and copies as planned, and passes the estimates on |
| VTable.Filter | sqlite3_opt_vtable.go:517-533 | every argument is converted, in order |
| VTable.PlanScanAgree | sqlite3_opt_vtable.go:466-473 | under SQLite's argv contract the argument vector is exactly the right-hand values of the used constraints, in constraint order |
| VTable.ScanSees | sqlite3_opt_vtable.go:517-533 | the cursor gets one value for each used constraint at the place of its number, and it carries the right-hand side unless that is text with a NUL |
| VTable.CStringIntact | sqlite3_opt_vtable.go:488-489 | IdxStr arrives unchanged exactly if it has no NUL |
| VTable.ConvertIntactIff | callback.go:205-236 | a value arrives whole exactly if it is not text with a NUL |
| Convert.ConvertAssign | convert.go:27-242 | the outcome and the new contents of the destination, through chains of pointers, are those of a table arranged by destination type; where the table stores nothing, nothing changes |
| Convert.AssignReflected | convert.go:158-242 | the same for the part that compares kinds and goes through text |
| Convert.IntegerExact | convert.go:185-220 | an integer assignment succeeds exactly if the value fits and then stores it, and otherwise stores nothing |
| Convert.TextExact | convert.go:203-220 | text, that of a float included, goes into an integer exactly if it is a numeral that fits, without a sign if the destination is unsigned |
| Convert.OwnType | convert.go:175-188 | a value goes unchanged into a variable of its own kind, and any value into an interface |
| Convert.RefusedIff | convert.go:230-241 | which pairs of types are refused outright, and which only for their text |
| Convert.WordsMakeNoInteger | convert.go:203-211 | no truth value and no nil makes an integer |
| Convert.NilSlices | convert.go:135-146 | exactly when the slice stored is nil |
| Convert.NilDestination | convert.go:124-168 | a nil destination is refused on the paths that look for it and dereferenced on the others |
| Convert.KindRanges | convert.go:203-220 | the values of each integer kind |
| Convert.ThroughText | convert.go:124-146 | integer to text to integer is the identity, through every textual type |
| Convert.NoLoss | convert.go:24-26 | no assignment that succeeds changes the integer a value stands for, whatever the types, bool and float destinations aside, and the number of pointers |
| Convert.FloatExactIff | convert.go:221-229 | into a float32 or float64 every integer is assigned without an error, and arrives exactly if it has at most 24 or 53 significant bits |
| Convert.FloatLoses | convert.go:221-229 | 2^24 + 1 and 2^53 + 1 have more |
| Convert.RoundsIsPossible | convert.go:221-229 | the assumption about ParseFloat, which is on the integers of the integer types only, is met by a library that refuses all others |
| Convert.ThroughPointers | convert.go:196-202 | assigning through pointers is assigning to a fresh variable at their end, also when it fails |
| Convert.FailureWrites | convert.go:196-202 | a failed assignment leaves the destination alone exactly if that is not a pointer |
| Convert.ZeroValues | convert.go:201-201 | what a fresh variable behind a pointer holds |
| Convert.AsBytesAppends | convert.go:260-300 | asBytes appends the text of asString to any buffer, for exactly the kinds it handles |
| Text.NumeralDecimal | convert.go:269-272 | the decimal text of an integer denotes that integer, with a sign exactly if it is negative |
| Text.PrintedIntegers | convert.go:269-272 | the decimal text in characters |
| Text.ReadIntegers | convert.go:203-211 | signs and digits in characters, and texts that are no integers |

## Left out

- The SQLite engine, cgo, `malloc` and finalizers: foreign code, replaced by the contracts stated in the model (tails
  get shorter, a registration fires at most once, contexts start zeroed, argument order, addresses in use are not
  handed out again).
- `strtod` and `%.17g`: parameters. Number texts are whatever `strtod` accepts, which is not the number grammar of
  section 6 of RFC 8259. Numbers are reals, so NaN, infinities and the two zeros are not modelled.
- picojson builds its value through pointers into the parent; here it is returned, so the half-built value of a failed
  parse is not described. The entry point is always given an error string. `std::map` is the key-ordered list of its
  entries. `deny_parse_context` is not modelled.
- The shifts, masks and ors of the UTF-8 code are written as the divisions, remainders and sums they are.
- UnlockTable.Table.Add: the counter is unbounded; the overwrite after 2^64 handles is not modelled.
- UnlockTable.Wait: covers one call whose registration fires at once; the interleavings are those of UnlockNotify.
- StepBlocking.Blocking: SQLite's answers are a list, so a loop that is still blocked at its end has not returned.
- Binder.Bind: a time carries its formatted text. A refused write is an index out of range, which changes nothing, or a
  value too long, which leaves its parameter NULL: SQLite releases a parameter before it looks at the new value.
- Script.ExecScript: the context is left to Cancellation, and `driver.ErrSkip` does not occur. `Conn.query`, which
  leaves a statement to its finalizer when arguments are lacking, is not modelled.
- Handles.Table.DeleteHandles: the value found is the interface, compared as a whole.
- Columns.ReadRow: values in time columns are a parameter.
- Lifecycle.Safety: `Stmt.Exec` and `Query` running beside Close do not take the mutex and are outside the
  interleavings, as are two calls of Conn.Close racing on the native connection.
- Cancellation.ExecHandshake: what the interrupt does inside SQLite is left open; any result may come back after it.
- VTable.BestIndex: an estimate of rows outside 64 bits, whose conversion C leaves open, is truncated like any other.
- Convert.ConvertAssign: times, Scanners, destinations that are no pointers and user-defined slice types are left out.
  Byte slices are values, so sharing of buffers is not described. The conversion to bool and the decimal text of floats
  are the standard library's and parameters. Syntax and range errors are one outcome.
- DSN options, authentication, backup, tracing, error-code tables and type names: flat lists of cases.
