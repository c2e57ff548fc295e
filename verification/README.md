# GpgME++ in Dafny

This project models the stateful parts of GpgME++, the C++ wrapper around gpgme, and proves what they
promise. `dafny verify dfyconfig.toml` checks all of it.

- **Key editing.** `EditInteractor` is the driver that gpg calls with status lines; it asks an interactor for
  the next state, has it act, writes the reply and stores errors. `AddUserId`, `SetExpiryTime`,
  `SetOwnerTrust` and `SignKey` are the four interactors. A `Session` is the driver's state as a value,
  together with every reply it tried to write; `Callback` is one status line, `Run` a whole stream of them.
  `Driver` is the object with its fields, proved to do what `Callback` says for the write errors of its descriptor.
  `EditRuns` and `SignKeyRuns` hold the theorems about all streams of status lines and all patterns of write errors,
  `EditSessions` carries them to the bytes on any file descriptor, and `EditPrompts` states them in gpg's own words.
  The four interactors are one datatype with a case for each, which stands for the virtual functions.
- **Descriptors.** `Descriptor.Fd` is a file descriptor whose writes may be short, stall or fail as a schedule
  says. `writeAll` and the passphrase loop of `Callbacks` run over it.
- **Configuration.** `Chains` defines null-terminated lists on the heap and the loops that count, index and
  collect them. `Configuration` copies, builds, reads and releases argument lists, `Options` edits the lists of
  an option, `Components` takes a chain of components apart.
- **Event loop.** `EventLoop` is the callback registry with its watchers and re-entrant dispatch.
- **Bytes.** `PercentUnescape` is the in-place percent decoder, `DataProvider` the seekable byte array.
- **Merging.** `KeyListResult` is the copy-on-write merge of shared results, `Keys` the merge of key flags over
  subkey lists that may be shared.

Method specifications are functions on values (`Callback`, `SendAll`, `Decode`, `Written`, `Merge`, `Apply`,
`After`); what the source promises is proved about those functions, and each method's contract equates its new
state with them.

## What the code does not keep

- `writeAll` does not advance its buffer after a short write. It delivers its buffer under every schedule of
  partial writes exactly when all bytes of the buffer are equal (`WriteAllExactIffUniform`); "quit" may arrive
  as "qqui". A session survives all short writes exactly if each of its lines is uniform (`WireExactIffUniform`).
- The listing of user ids has 999997 free states. With more ids the state counter reaches the end of the
  listing first, and ids stay unsent after the pass (`DoneSentAllIff`, `TooManyIds`).
- A second sign-all pass of the sign-key interactor fails the assertion in `nextUserID` when the first pass sent
  every id (`AbortsExactlyWhen`, `SecondPassAborts`). An assertion failure is modelled as an aborted session.
- The table of the sign-key interactor enters `CONFIRM` with "keyedit.prompt" twice; the second entry wins.
- When gpg asks for the expiry date again, a general error is stored, and the error for an invalid time is stored
  for other prompts (`RejectedDateError`), the opposite of what adding a user id does (`RejectedFieldError`).
- `xtoi_1` is not the value of a hexadecimal digit, or zero, for the bytes between the digits and 'A' and
  between 'X' and '`' (`Xtoi1IsHexValueIff`).
- The functions that create lists for options, unlike those for single values, do not compare types, so an int list
  given to an unsigned option is read back modulo 2^32 (`ListTransfer`, `ElementsReadBack`).
- A seek may leave a negative offset, from which the next read or write touches memory before the array (`Read`,
  `Write`).
- A copied argument list that `gpgme_conf_opt_change` refuses is not released by `setNewValue` (`SetValue`,
  `NothingLeaksIff`, `RefusedChangeLeaks`).
- A cancellation does not test true, so a merge may drop it: a cancelled `KeyListResult` without data counts as null,
  and one with data takes over the error of later data (`CancellationSurvivesIff`, `CancellationLost`).
- If an owner for `head->next` cannot be allocated in `Component::load`, the rest of the chain is released twice
  (`LoadAndDrop`, `SecondReleasedTwice`).
- A tag of the event loop is the address of its record. Removing it a second time is harmless only while no new
  registration is at that address; otherwise the new one is unregistered (`StaleTagIff`, `StaleTagHitsAnother`).
- `Key::mergeWith` passes a null to `strcmp` for some subkeys without a fingerprint, and always for keys that
  `primaryFingerprint` knows only by a key id (`ComparesNullIff`, `KeyIdOnly`).

## Model

| member | source | states |
|---|---|---|
| Descriptor.Fd.WriteAll | src/editinteractor.cpp:69-91 | the bytes written, the return value and the remaining schedule are those of SendAll, which offers the front of the buffer again after every short write |
| Descriptor.WriteAllExactIffUniform | src/editinteractor.cpp:69-91 | successful runs deliver exactly the buffer under every schedule if and only if all its bytes are equal |
| Descriptor.SendAllSucceeds | src/editinteractor.cpp:85-90 | the result is the count or negative; without failing writes it is the count, and then as many bytes were written |
| Descriptor.SucceedsIff | src/editinteractor.cpp:85-90 | success is reported exactly when none of the writes made failed |
| Descriptor.SendAllErrno | src/editinteractor.cpp:85-87 | a failure is that of the first write that failed, and no write is made after it |
| Descriptor.WriteAllCounterexample | src/editinteractor.cpp:71-88 | a first write of one byte turns "quit" into "qqui" while success is reported |
| EditInteractor.Driver.constructor | src/editinteractor.cpp:192-199 | a new driver is in the start state with no error and nothing sent |
| EditInteractor.Driver.WriteReply | src/editinteractor.cpp:126-153 | an empty text is not written; for every schedule of the descriptor the bytes written are those of the text and then of the newline, and the error is the errno of the write that failed |
| EditInteractor.Driver.Respond | src/editinteractor.cpp:118-161 | the object follows Perform, up to recording the error, for the write errors the descriptor produces, and writes the bytes of the action's reply and no others |
| EditInteractor.Driver.DoCallback | src/editinteractor.cpp:94-182 | for every schedule of the descriptor: the state after a callback is Callback of the state before with exactly the write errors that occur, the bytes written are those of the reply if there is one, and the stored error is returned |
| EditInteractor.ExchangeSucceeds | src/editinteractor.cpp:126-153 | if no write fails neither transfer reports an error and as many bytes go out as the line and its newline have; over whole writes they are the line and the newline |
| EditInteractor.StoredErrno | src/editinteractor.cpp:134-153 | the error stored for a reply that could not be written is the errno of the first of its writes that failed |
| EditSessions.Play | src/editinteractor.cpp:94-182 | over a whole stream and any descriptor the object, the bytes written and the rest of the schedule are those of the conversation on values |
| EditSessions.ConverseIsRun | src/editinteractor.cpp:94-182 | a conversation over any descriptor is a run, so the theorems about runs hold of the object |
| EditSessions.ConverseSucceeds | src/editinteractor.cpp:134-153 | if no write fails, the run has no write error |
| EditSessions.WireIsLines | src/editinteractor.cpp:126-153 | without failing writes as many bytes are written as the session has lines for, however writes are cut; over whole writes they are these lines |
| EditSessions.WireExactIffUniform | src/editinteractor.cpp:69-91 | exactly the lines of a conversation arrive under every schedule of short writes if and only if all bytes of each single line are equal |
| EditSessions.QuietWire | src/editinteractor.cpp:114-116 | once an error is stored no byte is written any more |
| EditSessions.EveryAskAnswered | src/editinteractor.cpp:224-252 | over a descriptor whose writes do not fail, every interactor answers every status that needs it with a complete line or an error, but for the silent moves of signing |
| EditSessions.LinearWire | src/editinteractor.cpp:102-160 | over whole writes a linear conversation writes the bytes of a prefix of the script |
| EditSessions.PlayLinear | src/editinteractor.cpp:94-182 | whatever gpg asks a new driver, a linear interactor object writes what its conversation says, the bytes of a prefix of its script |
| EditPrompts.Texts | src/gpgadduserideditinteractor.cpp:123-174 | each of the sixteen prompts is recognized by its own text and by no other string |
| EditPrompts.LinearProtocol | src/gpgadduserideditinteractor.cpp:108-188 | what a linear session has sent determines the one question (two after a trust value) that is answered, with the next line of the script; every other string is an error, and which one is stated |
| EditPrompts.QuestionsAnswered | src/gpgsetownertrusteditinteractor.cpp:90-150 | the questions as gpg spells them put exactly the first k lines of the script on the wire, for every linear interactor and every k |
| EditPrompts.SignProtocol | src/gpgsignkeyeditinteractor.cpp:173-300 | which strings a signing session accepts in which state, where each leads and which line it draws: the class question the digit of the check level, sign-all "Y" exactly if no ids are selected; any other string is an error |
| EditPrompts.OtherStatuses | src/editinteractor.cpp:224-252 | statuses that ask for nothing change nothing at any time, except the three that store their own error |
| EditPrompts.LedOut | src/gpgsetexpirytimeeditinteractor.cpp:124-139 | after an error the command-line prompt still leads to QUIT and the save question to SAVE, in all four interactors, with the error kept |
| EditRuns.DriverAgreement | src/editinteractor.cpp:98-173 | in every reachable state of all four interactors the error state means a stored error, and a stored error means the error state, QUIT or SAVE |
| EditRuns.QuietAfterFailure | src/editinteractor.cpp:114-116 | after a stored error every continuation keeps an error stored, attempts no line and moves no cursor |
| EditRuns.LinearTranscript | src/editinteractor.cpp:102-160 | every run sends a prefix of the interactor's script, at most 6, 4 or 5 lines; without an error the state tells how many, all complete |
| EditRuns.RiseWithEachLine | src/editinteractor.cpp:114-119 | an error-free linear session gains a line exactly when its state rises |
| EditRuns.LinearResponsive | src/editinteractor.cpp:224-252 | every status that needs a response gets one complete line or an error; any other status changes nothing unless it maps to an error |
| EditRuns.RejectedFieldError | src/gpgadduserideditinteractor.cpp:138-170 | while a field is pending, the field's own error is stored exactly when gpg asks for that field again |
| EditRuns.RejectedDateError | src/gpgsetexpirytimeeditinteractor.cpp:112-122 | asked for the date again a general error is stored; the invalid-time error comes with exactly the other unexpected lines |
| EditRuns.ScriptAttained | src/gpgadduserideditinteractor.cpp:123-174 | the expected prompts make each linear interactor send exactly the first k lines of its script, for every k |
| AddUserId.Interactor.SetNameUtf8 | src/gpgadduserideditinteractor.cpp:51-54 | the name becomes the argument and the other fields stay |
| AddUserId.Interactor.SetEmailUtf8 | src/gpgadduserideditinteractor.cpp:56-59 | the email becomes the argument and the other fields stay |
| AddUserId.Interactor.SetCommentUtf8 | src/gpgadduserideditinteractor.cpp:61-64 | the comment becomes the argument and the other fields stay |
| SetOwnerTrust.TrustStringIsOrdinal | src/gpgsetownertrusteditinteractor.cpp:65-73 | the digit sent is the enumerator's number, except that the unknown trust is sent as 1 |
| SignKey.CommandRoundTrip | src/gpgsignkeyeditinteractor.cpp:66-94 | the eight commands are spelled from their options, and reading the letters as the command-line test does gives the options back |
| SignKey.DecimalRoundTrip | src/gpgsignkeyeditinteractor.cpp:242-245 | the decimal digits sent, without a leading zero, read back as the number |
| SignKey.MakeTable | src/gpgsignkeyeditinteractor.cpp:173-208 | assigning the entries in source order yields exactly the transition function, later entries replacing earlier ones |
| SignKey.Private.SetCheckLevel | src/gpgsignkeyeditinteractor.cpp:303-308 | before the start, the check level is replaced and nothing else |
| SignKey.Private.SetUserIDsToSign | src/gpgsignkeyeditinteractor.cpp:310-317 | before the start, the selected ids are replaced and the cursor goes to the first |
| SignKey.Private.SetSigningOptions | src/gpgsignkeyeditinteractor.cpp:318-322 | before the start, the options are replaced and nothing else |
| SignKey.Private.NextUserID | src/gpgsignkeyeditinteractor.cpp:100-116 | with ids left, the number of the id under the cursor is returned and the cursor moves on by one |
| SignKey.Private.DoAction | src/gpgsignkeyeditinteractor.cpp:210-252 | the reply is that of the action function; the cursor moves exactly for a reply from a listing state |
| SignKey.Private.DoNextState | src/gpgsignkeyeditinteractor.cpp:254-301 | the state and error are those of the transition function, found through the table |
| SignKeyRuns.ListingPass | src/gpgsignkeyeditinteractor.cpp:274-290 | in the k-th listing state of the first pass the cursor is at k and exactly the command, "N" and the first k numbers were sent, in order |
| SignKeyRuns.ListedInOrder | src/gpgsignkeyeditinteractor.cpp:100-116 | in every run, over all passes and failures, the listed lines are those of the first ids up to the cursor, each once and in order |
| SignKeyRuns.ListedNumbers | src/gpgsignkeyeditinteractor.cpp:112-116 | each listed line reads back as the selected index plus one, the largest index wrapping to zero |
| SignKeyRuns.DoneSentAllIff | src/gpgsignkeyeditinteractor.cpp:149-152 | at the end of the p-th pass of an error-free run the first min(n, 999997 p) ids were sent, hence all if and only if n is at most 999997 p |
| SignKeyRuns.DoneReached | src/gpgsignkeyeditinteractor.cpp:286-291 | for every non-empty selection the expected prompts lead to the end of the first pass |
| SignKeyRuns.TooManyIds | src/gpgsignkeyeditinteractor.cpp:149-152 | every selection of more than 999997 ids has a run that ends its listing with 999997 of them sent |
| SignKeyRuns.AbortsExactlyWhen | src/gpgsignkeyeditinteractor.cpp:102 | a callback fails the assertion of nextUserID exactly when it begins a listing although the earlier passes had slots for all ids |
| SignKeyRuns.FirstPassIsSafe | src/gpgsignkeyeditinteractor.cpp:102 | a run that failed the assertion has begun a second pass |
| SignKeyRuns.SecondPassAborts | src/gpgsignkeyeditinteractor.cpp:198 | after a first pass that sent every id, a second sign-all pass always fails the assertion |
| SignKeyRuns.QuitOnlyAfterConfirmation | src/gpgsignkeyeditinteractor.cpp:191-205 | "quit" directly follows a complete confirmation "Y", at most the saving "Y" follows it, and that one only follows "quit" and ends the transcript |
| SignKeyRuns.SignResponsive | src/gpgsignkeyeditinteractor.cpp:191-192 | the only statuses needing a response that get neither a line nor an error are the two CONFIRM self-loops, the moves into the trust states and the failing assertion |
| Callbacks.PassphraseCallback | src/callbacks.cpp:81-119 | the bytes written and the error returned are those of Reply, and every byte of the passphrase is zero on return while the rest of the buffer is untouched |
| Callbacks.PassphraseArrives | src/callbacks.cpp:91-105 | if every write takes a byte, exactly the passphrase and one newline arrive and no error is returned |
| Callbacks.PrefixArrives | src/callbacks.cpp:88-118 | in general a prefix and at most one newline arrive, the whole exactly when no error is returned; cancelling sends none of it |
| Callbacks.NewlineAttempted | src/callbacks.cpp:88-118 | the write right after those for the passphrase offers the newline, after a failure and a cancellation too; the error is the errno of the first failing write |
| Descriptor.Fd.Deliver | src/callbacks.cpp:92-105 | the loop writes the prefix that Progress says, for every schedule including stalls |
| Descriptor.ProgressIsComplete | src/callbacks.cpp:94-105 | all bytes are out exactly when no write failed |
| Callbacks.WipeMemory | src/callbacks.cpp:74-79 | the first bytes are zero and the others unchanged |
| Chains.ChainIsUnique | src/configuration.cpp:205-214 | a list head determines its nodes |
| Chains.Length | src/configuration.cpp:205-214 | the counting loop returns the number of nodes |
| Chains.At | src/configuration.cpp:163-182 | the indexing loop returns the node at the index, or null past the end |
| Chains.Collect | src/configuration.cpp:931-941 | the collecting loop returns what each node holds, in order |
| Configuration.Gpgconf.ArgRelease | src/configuration.cpp:837-842 | releasing a list whose nodes are all allocated frees exactly those |
| Configuration.CopyArgs | src/configuration.cpp:228-251 | the copy is a chain of new nodes with the values as read for the option's type, or null with everything built so far released; the source is untouched |
| Configuration.AfterCopyIs | src/configuration.cpp:232-240 | copying attempts the allocations up to the first that fails and no more |
| Configuration.ReadAsExactIff | src/configuration.cpp:233-237 | a copy made for a type equals its source if and only if every value fits the type, where integers of either sign and counts fit alike |
| Configuration.MakeList | src/configuration.cpp:735-750 | the list holds, in order, the elements whose allocation succeeded |
| Configuration.KeptIs | src/configuration.cpp:735-750 | the elements that survive failing allocations are exactly those at the places where one succeeded, in order |
| Configuration.Argument.Copying | src/configuration.cpp:803-842 | a copied argument shares no node with its source and has the same values, or is null if an allocation failed |
| Configuration.Argument.Destroy | src/configuration.cpp:837-842 | destroying an argument releases exactly its own nodes |
| Configuration.Argument.NumElements | src/configuration.cpp:854-866 | the number of elements is the length of the list |
| Configuration.Argument.ValuesAs | src/configuration.cpp:931-973 | all elements in order if the option has the wanted type, otherwise nothing |
| Configuration.Argument.ValueAt | src/configuration.cpp:868-917 | the element at the index if the type fits and the list is long enough, otherwise zero |
| Configuration.ListRoundTrip | src/configuration.cpp:767-801 | a vector stored in an argument of the matching type reads back as its elements whose allocation succeeded, and as itself if all did; count and indexed access agree |
| Configuration.ListTransfer | src/configuration.cpp:752-801 | the list functions do not ask for the option's type: an accessor of the option's type reads what they stored, any other nothing |
| Configuration.ListContents | src/configuration.cpp:735-750 | what is stored has the option's type and reads back as the surviving elements |
| Configuration.ElementsReadBack | src/configuration.cpp:718-733 | ints, unsigned ints and possibly null strings are stored with their type and read back unchanged; integers read with the other sign are unchanged if and only if both can express them |
| Options.LastAcceptedEditWins | src/configuration.cpp:531-625 | over any history of edits the current value is what the last accepted edit intends, the default and active lists never change, and set and dirty follow that edit |
| Options.Perform | src/configuration.cpp:584-625 | over any history of requests and any pattern of failing allocations the option object follows the attempts, and every refused copy stays allocated without an owner |
| Options.NothingLeaksIff | src/configuration.cpp:584-599 | a history leaks nothing if and only if each new value was accepted, failed to be copied or was empty |
| Options.ConfOption.IsSetNow | src/configuration.cpp:559-573 | the object answers what IsSet says of its contents |
| Options.UnsetMeansDefault | src/configuration.cpp:537-569 | an option that is not set has its default as current value, a set one its new or active list |
| Options.ResetRestoresIff | src/configuration.cpp:601-612 | resetting to the active value after any edits restores the original option exactly if it carried no pending change |
| Options.ConfOption.CurrentValue | src/configuration.cpp:531-545 | the result is made of new nodes holding the current value, these are what the call leaves allocated, and the option is unchanged |
| Options.ConfOption.InspectCurrentValue | src/configuration.cpp:531-545 | reading the current value and dropping it leaves no node allocated |
| Options.ConfOption.SetValue | src/configuration.cpp:584-599 | the option becomes After of the attempt and owns its copy if the change is accepted; what the call leaves allocated is owned by the option if and only if the change is accepted, the copy failed or the argument is null; the error tells a failed copy from a refused change |
| Options.RefusedChangeLeaks | src/configuration.cpp:584-599 | after a refused change to the list [1] an allocated node belongs neither to the option nor to the argument |
| Options.ConfOption.ResetToActive | src/configuration.cpp:601-612 | an accepted reset drops the new value and the change flag |
| Options.ConfOption.ResetToDefault | src/configuration.cpp:614-625 | an accepted reset leaves an empty new value with the change flag set |
| Components.Load | src/configuration.cpp:85-103 | without an exception every component in chain order with a null next; an exception releases each component once, except that those behind an owner that cannot be allocated are released twice |
| Components.LoadAndDrop | src/configuration.cpp:80-103 | loading and dropping the result releases every component exactly once if and only if allocating an owner does not fail on a component that has a successor |
| Components.SecondReleasedTwice | src/configuration.cpp:87-93 | of two components the second is released twice if memory suffices for one owner |
| EventLoop.EventLoopInteractor.RegisterIOCb | src/eventloopinteractor.cpp:86-101 | a refused watcher changes nothing; otherwise the record is appended and its address handed out as the tag |
| EventLoop.EventLoopInteractor.RemoveIOCb | src/eventloopinteractor.cpp:103-118 | the record at the address is unregistered and erased; an address without a record changes nothing |
| EventLoop.EventLoopInteractor.ActOn | src/eventloopinteractor.cpp:190-199 | the first matching record's callback runs, with whatever it registers, removes and dispatches in turn |
| EventLoop.EveryHistoryIsConsistent | src/eventloopinteractor.cpp:86-118 | after any history in which live records and live watchers are not doubled, the records are exactly the registrations not yet removed, in order, each removal unregistered one of them once, the live watchers are exactly theirs, and an address came back only after a removal |
| EventLoop.ApplyKeeps | src/eventloopinteractor.cpp:190-199 | every operation keeps the registry consistent, a dispatch included whatever its callback does |
| EventLoop.RemovalIff | src/eventloopinteractor.cpp:109-117 | removing a tag changes nothing if and only if no live registration is at that address, and otherwise unregisters that one; doing it twice at once is doing it once |
| EventLoop.StaleTagIff | src/eventloopinteractor.cpp:109-117 | removing a tag that was removed before changes nothing if and only if no later live registration was allocated at its address; otherwise that one is unregistered |
| EventLoop.StaleTagHitsAnother | src/eventloopinteractor.cpp:96-114 | a possible history in which a second removal of one tag unregisters another registration |
| EventLoop.RegisterThenRemove | src/eventloopinteractor.cpp:96-117 | removing the tag just handed out restores the records and the watchers |
| EventLoop.DispatchPicksEarliest | src/eventloopinteractor.cpp:192-198 | one callback runs exactly if a live registration has that descriptor and direction; it is the earliest of these, called with its data and the descriptor |
| EventLoop.EveryCallBelongs | src/eventloopinteractor.cpp:194-195 | after any history each callback that ran was that of a registration, with its own data and for its own descriptor |
| EventLoop.RegisterThenDispatch | src/eventloopinteractor.cpp:92-98 | activity on a new registration's descriptor runs its function with its data, in its direction only |
| PercentUnescape.Xtoi1IsHexValueIff | src/context.cpp:66-74 | xtoi_1 does not depend on the signedness of char and is the digit's value, or zero, exactly outside two ranges of bytes |
| PercentUnescape.HexDigitsAre | src/context.cpp:66-74 | the digits, in order and in both cases, have the values 0 to 15, and no other byte does |
| PercentUnescape.UnescapeOne | src/context.cpp:84-94 | one step stores the decoded byte, touches no other byte and keeps what decoding the buffer will give |
| PercentUnescape.Unescape | src/context.cpp:81-96 | in place, the front of the buffer becomes the decoding of its original contents |
| PercentUnescape.DecodeUndoesEncoding | src/context.cpp:81-96 | decoding undoes every percent-encoding of every byte string, whichever bytes are escaped and in whichever case |
| PercentUnescape.DecodeEncode | src/context.cpp:81-96 | decoding undoes the encoder of RFC 3986 with '+' for a space if asked for |
| PercentUnescape.DecodeExample | src/context.cpp:84-94 | "A+%2f" becomes "A /", or "A+/" if plus signs stand for themselves |
| PercentUnescape.DecodeFixpoints | src/context.cpp:85-92 | a string decodes to itself exactly if it has no plus sign to turn into a space and no '%' that two bytes follow |
| DataProvider.QByteArrayDataProvider.ResizeAndInit | src/qgpgme/dataprovider.cpp:43-52 | the array grows and the new bytes are zero, or it is unchanged |
| DataProvider.QByteArrayDataProvider.Read | src/qgpgme/dataprovider.cpp:62-82 | the bytes at the offset are copied out and the offset moves by as many; null buffers and the end of the file are reported; exactly a negative offset makes it read outside the array |
| DataProvider.QByteArrayDataProvider.Write | src/qgpgme/dataprovider.cpp:84-107 | the file becomes Written of the file, or nothing changes and an error is reported; the assertion fails exactly for a write from inside the array or before it to behind it |
| DataProvider.QByteArrayDataProvider.Seek | src/qgpgme/dataprovider.cpp:109-130 | the offset becomes the target of the seek converted to a 32-bit int |
| DataProvider.QByteArrayDataProvider.Release | src/qgpgme/dataprovider.cpp:132-138 | the array becomes empty |
| DataProvider.SeekExactIff | src/qgpgme/dataprovider.cpp:114-129 | a seek goes where it was asked to if and only if the target fits a 32-bit int, and otherwise modulo 2^32 |
| DataProvider.Perform | src/qgpgme/dataprovider.cpp:62-130 | under any history of reads, writes and seeks, failing writes included, the provider reads the same bytes and ends in the same state as the abstract file |
| DataProvider.LastWriteWins | src/qgpgme/dataprovider.cpp:84-107 | after any history every place holds what the last write that succeeded over it put there, or what it held before, gaps reading as zero; the size is where the writes reached |
| DataProvider.ReadBack | autotests/dataprovidertest.cpp:79-82 | going back and reading as much returns what was written |
| DataProvider.ChunkedWriting | src/qgpgme/dataprovider.cpp:93-106 | writes of any sizes leave what one write of their concatenation leaves, at the same offset |
| DataProvider.ReadBehindWrite | src/qgpgme/dataprovider.cpp:105 | a read right after a write starts behind the bytes written |
| DataProvider.SeekLaws | src/qgpgme/dataprovider.cpp:114-129 | seeking forward equals reading, seeking to a place reads from there, writing at the end appends, and the three ways to the start agree |
| DataProvider.ChunkedReading | src/qgpgme/dataprovider.cpp:74-81 | reads of any sizes concatenate to one read, and to the exact remaining content once they reach the end |
| KeyListResult.MergedFold | src/keylistresult.cpp:82-104 | merging any sequence of results is truncated if and only if one was; its error is the first that tests true, and if none does, that of the last result merged in that held data |
| KeyListResult.DataSurvivesIff | src/keylistresult.cpp:82-104 | the outcome holds data if and only if some result did that was truncated or had no error before it |
| KeyListResult.CancellationSurvivesIff | src/keylistresult.cpp:84-103 | the outcome of merging is cancelled if and only if no error tests true and the last result merged in that holds data, or the first result if none of them does, is cancelled |
| KeyListResult.CancellationLost | src/keylistresult.cpp:84-103 | a cancelled result without data is lost when merged in, one with data when another with data is merged into it |
| KeyListResult.Result.Detach | src/keylistresult.cpp:74-80 | afterwards the data has no other owner, and nobody sees a change |
| KeyListResult.Result.MergeWith | src/keylistresult.cpp:82-104 | this result becomes the merge, every other result keeps its data and looks as before, and the use counts stay right |
| KeyListResult.MergeEach | src/keylistresult.h:58-62 | repeated += makes one result the fold of all others, which stay as they are |
| Keys.PrimaryFingerprintOf | src/key.cpp:265-273 | the first subkey's fingerprint, or its key id, or nothing |
| Keys.FindSubkey | src/key.cpp:333-343 | the subkey at the index, or null past the end |
| Keys.AllSubkeys | src/key.cpp:102-114 | all subkeys in order |
| Keys.OrIsUnion | src/key.cpp:298-310 | each of the merged flags is set exactly if one of the keys has it |
| Keys.CardFlags | src/key.cpp:312-322 | a card flag after merging is mine or that of his first subkey with the fingerprint; with distinct fingerprints none is lost |
| Keys.MergeWith | src/key.cpp:280-325 | in place, my key becomes the merge of both, also when both are one shared object; a null fingerprint is passed to strcmp exactly if ComparesNull holds |
| Keys.MergesIffIdentitiesAgree | src/key.cpp:285-310 | a key gets the flags of another, flag by flag, if their identities agree letter by letter up to ASCII case, and is otherwise left alone |
| Keys.UnidentifiedIsLeftAlone | src/key.cpp:285-286 | without an identity on either side nothing is merged |
| Keys.OneLetterKeepsApart | src/key.cpp:287 | identities that differ in length or at one place in more than case are never merged |
| Keys.CaseDoesNotMatter | src/key.cpp:287 | the case of either identity makes no difference |
| Keys.ComparesNullIff | src/key.cpp:313-320 | keys of one identity are merged without passing a null to strcmp if and only if all my subkeys have a fingerprint and each of his that has none lies behind a match for each of mine; never if primaryFingerprint fell back to a key id |
| Keys.KeyIdOnly | src/key.cpp:265-273 | two keys with one subkey known only by its key id make merging compare a null |
| Keys.MergeCardFlags | src/key.cpp:312-322 | the nested loops compute the merged subkeys from the values both lists had before, or stop at the first null they compare |
| Keys.MergeKeepsIdentity | src/key.cpp:285-289 | merging changes neither the primary fingerprint nor any subkey's identity |
| Keys.MergeAbsorbsAndCommutes | src/key.cpp:280-325 | merging the same key again adds nothing, and the order of two merges makes no difference |

## Left out

- libgpgme itself. Small contracts stand for `gpgme_conf_arg_new`, `gpgme_conf_arg_release`,
  `gpgme_conf_release`, `gpgme_conf_opt_change`, `write`, and the watchers and record addresses of the event
  loop, which are distinct only among live ones.
- Virtual dispatch: the interactors are the cases of a datatype, so subclasses written by others are not covered.
- Null argument strings of statuses that need a response, which the source passes to `strcmp` and `std::string`.
- Status codes and argument strings the interactors do not tell apart are one value each (`OtherStatus`,
  `OtherPrompt`).
- Changing the fields of the user-id interactor in the middle of a session: the theorems about runs fix the
  settings.
- Debug output of the driver and the strings for status codes.
- The optional-variant interface of options, which repeats the list loops, and `find_uid`, the same walk as
  `find_subkey`.
- DataProvider.QByteArrayDataProvider.Write: arrays that would grow beyond the int range; histories (`Perform`) are
  those in which no operation fails an assertion or leaves the array.
- Configuration.CopyArgs: what reading a string as a number or a number as a string yields is one value, `Garbage`.
- Configuration.Argument.Copying: lists of strings created for an option of a numeric type, and the reverse.
- Configuration.ListRoundTrip: options whose component is gone, for which the source returns null arguments.
- Options.ConfOption.SetValue: string arguments for options of a numeric type and the reverse, and what happens to a
  replaced new value, which is up to gpgme.
- EventLoop.EventLoopInteractor.RemoveIOCb: calls after the interactor was destroyed, which return at once.
- Keys.MergeWith: what the key holds after a null was passed to `strcmp`, which is undefined.
- Results, attributes and operations of `Context`, Qt devices and signals, engine information and printing:
  forwarding and formatting.
