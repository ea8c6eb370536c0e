# A verified model of the R-Car hardware composer

This project models the hardware composer service of this repository and proves what its parts
promise: the command stream between client and service, the planner that spreads layers over
hardware planes, the PRIME handle cache with the hotplug machine that bounds it, the ownership of
buffers, framebuffers and fences, the worker thread's condition-variable protocol, and the phase
arithmetic of synthetic vertical blanks. `dafny verify dfyconfig.toml` checks all of it.

## What is proved

- **Command stream** (`Words`, `Commands`, `Stream`, `CommandWriter`, `CommandReader`,
  `ChangedTypes`, `Replies`, `Reporting`, `WireFormat`). `CommandReader.Transmit` runs the writer
  and the reader end to end: for every list of commands the service executes the same commands with
  the same arguments, makes exactly the HAL calls that the commands say, returns NONE and reaches no
  LOG_FATAL branch on either side; the writer aborts exactly when the stream needs 2^32 words. For
  arbitrary words `Stream.ItemsAreFramePrefix` says that what is executed is the decoding of the
  longest accepted prefix of frames, and why parsing stops where it does; `WireFormat` gives the
  words of each frame as numbers and the lengths that are accepted. Lists of changed types of any
  length are cut into frames that read back to the list, so that after a validation the client reads
  exactly the layers the plan changed (`Reporting.ReportValidation`), and the SET_ERROR frames in
  the output read back to the offsets and errors of the commands they are about.
- **Session** (`Session`, `HalCalls`, `SessionProofs`, `SlotConservation`, `SlotHistory`). Each
  command's calls, replies and slot changes are written out over the nested slot vectors, which are
  one flat map; over every run of commands and layer and slot calls of a client, a CACHED command
  passes the HAL the buffer last put in its slot of the display and layer last selected, since the
  slot came into being, and each imported buffer is in one slot, or was freed once, or was leaked,
  and the leak has an exact condition; each command replies at most once.
- **Planner** (`Planner`, `ZOrder`, `HwcDisplay`). In the layers' own fields, exactly the layers
  that ask for a plane, fit one and find one left get one. Plans are admissible, report exactly the
  changed layers, repeat themselves after being accepted, and are optimal exactly when a stated
  condition does not hold. `HwcDisplay.Display.ValidateAndCommit` goes from a validation to the
  planes: for distinct z below 2^31 every device and client layer is shown, in z order, and no layer
  with a framebuffer is dropped at commit.
- **PRIME cache and hotplug** (`PrimeCache`, `HotPlug`). The cache gives the handle a direct import
  would give, open handles are exactly the cached ones and none is closed twice; the hotplug machine
  keeps display ids dense, the primary display connected and the limit at three entries per
  connected connector, so that eviction never draws from an empty selection.
- **Ownership** (`Framebuffers`, `Fences`, `FenceRuns`). Live framebuffers are those of the active
  composition; over any run of calls every call has its stated effect on the fences of each layer,
  and each descriptor has one owner until it is handed out or closed, once.
- **Threads and time** (`WorkerProtocol`, `VSync`). No wake-up is lost under any interleaving, a
  worker that controlVSync(false) has disabled waits for no blank before it is enabled again, and
  the worker leaves within six moves of its own after exitWorker has notified. Synthetic timestamps
  are strictly increasing, keep their phase, each is the first in it after its own clock, and they
  are a frame of the refresh rate apart wherever the clock keeps up.

## Where the code falls short of what it is for

Each of these is stated as an exact condition.

- The planner is optimal unless every layer that could have a plane fits and the z-sorted list has
  another length than the number of planes: layers that pass through (skipped solid colours, for
  one) are counted by the promotion step (`Planner.PlanIsOptimal`, with an instance in
  `Planner.OverlookedInstance`).
- The z-sorted map drops layers exactly when two have the same z (`ZOrder.NoneLostIffDistinct`), and
  its order is the z order of two layers exactly when both or neither are below 2^31
  (`ZOrder.KeyOrderIsZOrder`).
- Presenting without validating reuses types validated for an earlier z order; the result is in z order
  exactly when those types still put no device layer above a client layer
  (`HwcDisplay.Display.PresentDisplay`, with an instance in `HwcDisplay.SwappedAfterValidation`).
- A framebuffer of the last committed frame is removed before the next commit exactly when a commit
  fails while such a frame is shown: applyFrame swaps the compositions whatever the commit returned
  (`Framebuffers.DisplayBuffers.PresentAll`, with an instance in `Framebuffers.FailedCommitTearsDown`).
- An imported buffer is leaked exactly when its command names a slot that does not exist: updateBuffer
  reports the error but does not free the import (`SlotConservation.LostExactlyWhenSlotMissing`, with
  an instance in `SlotHistory.SlotPastTheVector`).
- getPhasedVSync skips a frame exactly when the clock is short of the last timestamp by a number of
  nanoseconds that is no multiple of the frame time (`VSync.PhasedIsNext`, with an instance in
  `VSync.EarlyClockSkipsAFrame`).
- The reader's length check wraps exactly when the end of a frame is 2^32 or more
  (`Stream.LengthCheck`); doubling the writer's buffer works exactly below a capacity of 2^31
  (`CommandWriter.DoublingStopsAtTwo31`); a client target of length 0 is the one length that passes
  its check without the four words it reads (`Commands.ClientTargetLengthCheck`).
- Eviction divides by zero exactly when the limit is not positive (`PrimeCache.DrawsAreDefined`).

Where the code does not do what it reads as, the model follows what it does: the loop condition at
vsyncworker.cpp:97 reads as resuming an interrupted sleep, but clock_nanosleep returns the error number
and never -1, so the loop runs once; HwcBuffer.cpp treats the importer's result as fatal, but
CHECK_RES_FATAL only rejects negative values, so a buffer whose framebuffer could not be made is kept
with id 0.

## Assumptions

- The numbers of opcodes, errors and composition types, HandleIndex EMPTY = -1 and CACHED = -2, and the
  16-bit/16-bit header are those of `IComposerClient.hal` (android.hardware.graphics.composer@2.1), which
  is not part of this model. The round trips need only that they are distinct.
- The HAL answers each call by an arbitrary function of the calls so far, the mapper by an arbitrary
  function of the number of imports tried; kernel calls take their outcome as a parameter.
- LOG_FATAL and LOG_ALWAYS_FATAL are a flag and an abort; the recovery code behind LOG_FATAL is modelled.
- Kernel handle, framebuffer and descriptor numbers are identities: they are not reused.
- One buffer per stamp in the PRIME cache; the two arguments of SET_LAYER_CURSOR_POSITION are read left
  to right; floats are opaque words in the stream and reals in the planner's size check.

## Model

| member | source | states |
|---|---|---|
| Words.JoinSplit | IComposerCommandBuffer.h:504-509 | a 64-bit value is recovered from the two words it is written as |
| Commands.OpcodeOf | ComposerClient.cpp:705-792 | the dispatch switch loses nothing: the opcode found has the number read |
| Commands.OpcodeFor | IComposerCommandBuffer.h:147-461 | every writer uses an opcode that fits 16 bits and is dispatched to its own handler |
| Commands.Clipped | IComposerCommandBuffer.h:266-286 | a region that fits the 16-bit frame is kept whole, a longer one is dropped whole |
| Commands.Payload | IComposerCommandBuffer.h:147-461 | a payload fits a frame, and a frame has at least two words for each handle it refers to |
| Commands.ClientTargetLengthCheck | ComposerClient.cpp:892-896 | 0 is exactly the length that passes the modulus check without the four words read |
| Commands.RegionRoundTrip | ComposerClient.cpp:1391-1411 | a region reads back rectangle by rectangle |
| Commands.ColorRoundTrip | IComposerCommandBuffer.h:531-537 | the packed colour unpacks to its four bytes |
| Commands.HandleRoundTrip | IComposerCommandBuffer.h:774-799 | a handle index gives back the handle, a null cacheable handle reads as CACHED, another null as null |
| Commands.FenceRoundTrip | IComposerCommandBuffer.h:807-828 | a nonnegative fence arrives, any other reads as -1 |
| Commands.ClientTargetRoundTrip | ComposerClient.cpp:892-905 | dataspace and damage of a client target are found behind its first three words |
| Commands.BufferRoundTrip | ComposerClient.cpp:1153-1186 | the three buffer commands are decoded to slot, source, fence and target arguments as written |
| Commands.FrameRoundTrip | IComposerCommandBuffer.h:147-461 | decoding the payload of any written command gives that command |
| Commands.HeaderRoundTrip | IComposerCommandBuffer.h:464-473 | opcode and length are recovered from the header word |
| WireFormat.SelectLayout | IComposerCommandBuffer.h:146-160 | the words of the select commands |
| WireFormat.QueryLayout | IComposerCommandBuffer.h:298-323 | the words of the queries |
| WireFormat.BufferLayout | IComposerCommandBuffer.h:287-343 | header, slot, buffer and fence of the buffer commands, with the reserved indices |
| WireFormat.TargetLayout | IComposerCommandBuffer.h:266-286 | those of a client target, with dataspace and damage behind them |
| WireFormat.StreamLayout | IComposerCommandBuffer.h:414-420 | the words of a sideband stream |
| WireFormat.RegionLayout | IComposerCommandBuffer.h:511-522 | left, top, right and bottom of each rectangle of a region |
| WireFormat.RegionFrameLayout | IComposerCommandBuffer.h:346-361 | the words of the region setters |
| WireFormat.SignedLayout | IComposerCommandBuffer.h:366-396 | the words of the signed setters |
| WireFormat.PlainLayout | IComposerCommandBuffer.h:406-461 | the words of plane alpha, z order and source crop |
| WireFormat.ColorLayout | IComposerCommandBuffer.h:531-537 | red is the lowest byte of a colour |
| WireFormat.GeometryLayout | IComposerCommandBuffer.h:253-264 | the words of cursor position, display frame and colour transform |
| WireFormat.ErrorLayout | IComposerCommandBuffer.h:162-168 | an error frame is its location and its number |
| WireFormat.ChangeLayout | IComposerCommandBuffer.h:178-198 | a changed type is its layer, low half first, and its number |
| WireFormat.ChunkLayout | IComposerCommandBuffer.h:178-198 | every frame of changed types but the last is full |
| WireFormat.AcceptedLengths | ComposerClient.cpp:705-1389 | exactly which frame lengths the handlers accept, for frames of any client |
| WireFormat.LaterCommands | ComposerClient.cpp:796-838 | exactly which commands are answered by UNSUPPORTED |
| WireFormat.AnyHandle | IComposerCommandBuffer.h:774-828 | any word as a handle or a fence: an index outside the table is null, a fence has one descriptor |
| Stream.EncodeAppend | IComposerCommandBuffer.h:464-490 | writing one more command appends one frame and its handles, numbered behind those before |
| Stream.TwoWordsPerHandle | IComposerCommandBuffer.h:539-572 | a stream has at most half as many handles as words, so handle indices stay nonnegative |
| Stream.LengthCheck | IComposerCommandBuffer.h:686-711 | the reader's bound is the true one if and only if the frame's end is below 2^32 |
| Stream.ReadFrame | ComposerClient.cpp:683-703 | an accepted frame ends where its header says; a turn that stops executes nothing |
| Stream.Parse | ComposerClient.cpp:683-703 | parsing terminates inside the buffer for all words |
| Stream.FrameArrives | IComposerCommandBuffer.h:686-711 | a written frame found anywhere in a stream is accepted and delivers its command |
| Stream.SuffixRoundTrip | ComposerClient.cpp:683-703 | from any frame boundary on, the rest of a written stream parses to the commands behind it |
| Stream.StreamRoundTrip | ComposerClient.cpp:683-703 | every stream a client can write parses completely to its commands at their offsets, without LOG_FATAL |
| Stream.TurnSemantics | ComposerClient.cpp:683-703 | an accepted turn decodes exactly the words of its frame; a rejected frame has no decoding, a truncated one leaves the buffer |
| Stream.ItemsAreFramePrefix | ComposerClient.cpp:683-703 | the requests are the decodings of the longest accepted prefix of frames, in order; each ending says why no further frame was accepted |
| Stream.FrameStarts | IComposerCommandBuffer.h:686-726 | frame starts, found by walking headers alone, are increasing and inside the buffer |
| Stream.LocationsIncrease | IComposerCommandBuffer.h:728-730 | command locations strictly increase |
| CommandWriter.NewCapacity | IComposerCommandBuffer.h:588-610 | the new capacity suffices even when the doubling shift wraps |
| CommandWriter.DoublingStopsAtTwo31 | IComposerCommandBuffer.h:588-610 | growth doubles for every request if and only if the capacity is below 2^31 |
| CommandWriter.DeclaredLengthIsWritten | IComposerCommandBuffer.h:147-461 | each writer writes exactly the length it declares |
| CommandWriter.Writer.CopyOut | IComposerCommandBuffer.h:588-610 | the new buffer starts with all words written so far |
| CommandWriter.Writer.GrowData | IComposerCommandBuffer.h:588-610 | room for the request, earlier words unchanged, abort exactly at 2^32; a growth copies exactly the words written so far |
| CommandWriter.Writer.BeginCommand | IComposerCommandBuffer.h:464-473 | appends the header and fixes the frame's end; a nested command is fatal |
| CommandWriter.Writer.EndCommand | IComposerCommandBuffer.h:475-490 | cuts or pads the frame to its declared length, silently only if it was exact |
| CommandWriter.Writer.Write64 | IComposerCommandBuffer.h:504-509 | appends the low and the high half |
| CommandWriter.Writer.WriteRegion | IComposerCommandBuffer.h:518-522 | appends the words of all rectangles |
| CommandWriter.Writer.WriteHandle | IComposerCommandBuffer.h:539-553 | appends the index the handle gets in the table, or the reserved index |
| CommandWriter.Writer.WriteFence | IComposerCommandBuffer.h:556-572 | appends the index of a one-descriptor handle, or EMPTY |
| CommandWriter.Writer.WriteSetting | IComposerCommandBuffer.h:254-461 | appends the words of a setting |
| CommandWriter.Writer.WriteTarget | IComposerCommandBuffer.h:266-286 | appends dataspace and damage of a client target |
| CommandWriter.Writer.WriteBuffer | IComposerCommandBuffer.h:266-344 | appends slot, buffer, fence and target words, registering both handles in order |
| CommandWriter.Writer.WritePayload | IComposerCommandBuffer.h:147-461 | appends the payload of any command |
| CommandWriter.Writer.WriteCommand | IComposerCommandBuffer.h:147-461 | appends one frame behind everything written before, without LOG_FATAL, copying the earlier words at most once |
| CommandWriter.Writer.WriteAll | IComposerCommandBuffer.h:147-461 | a fresh writer holds exactly the encoding of the commands, aborting exactly at 2^32 words; below a capacity of 2^31 growth has copied no more words than capacity was gained |
| CommandWriter.EncodePrefix | IComposerCommandBuffer.h:588-610 | an abort on the way is an abort of the whole stream |
| ChangedTypes.EntriesRoundTrip | IComposerCommandBuffer.h:178-198 | entries read back in order |
| ChangedTypes.FramesConcatenateBack | IComposerCommandBuffer.h:178-198 | the frames of a list of any length read back to the list |
| ChangedTypes.CollectFrame | IComposerCommandBuffer.h:178-198 | a reader of frames takes one chunk and goes on behind it |
| ChangedTypes.NextChunk | IComposerCommandBuffer.h:178-198 | each turn takes a nonempty chunk that fits a frame and lacks exactly the rest |
| ChangedTypes.WriteEntries | IComposerCommandBuffer.h:178-198 | writes the entries of a chunk |
| ChangedTypes.WriteChunk | IComposerCommandBuffer.h:178-198 | writes one frame with its entries |
| ChangedTypes.SetChangedCompositionTypes | IComposerCommandBuffer.h:178-198 | the chunking loop appends exactly the frames of the list |
| CommandReader.Reader.ReadQueue | IComposerCommandBuffer.h:644-671 | loads the words and handles of a message if and only if they fit the queue and the buffer |
| CommandReader.Reader.Read64 | IComposerCommandBuffer.h:741-746 | reads the value of two words |
| CommandReader.Reader.ReadRectangles | ComposerClient.cpp:1400-1411 | reads the region of the next words |
| CommandReader.Reader.ReadBufferHandle | IComposerCommandBuffer.h:774-799 | reads a handle or CACHED |
| CommandReader.Reader.ReadFenceFd | IComposerCommandBuffer.h:807-828 | reads the descriptor of a one-descriptor handle, -1 otherwise |
| CommandReader.Reader.ReadMatrix | ComposerClient.cpp:871-890 | reads the sixteen words of a colour transform |
| CommandReader.Reader.BeginCommand | IComposerCommandBuffer.h:686-711 | takes the header, or puts the cursor back on it when the length check fails |
| CommandReader.Reader.EndCommand | IComposerCommandBuffer.h:713-726 | moves to the frame's end, fatal if and only if the handler read something else |
| CommandReader.Reader.ReadRegionSetting | ComposerClient.cpp:1188-1203 | a region handler accepts multiples of four words |
| CommandReader.Reader.ReadSetting | ComposerClient.cpp:1222-1389 | reads the setting of a frame, or rejects its length |
| CommandReader.Reader.ReadWordSetting | ComposerClient.cpp:1222-1389 | reads a setting of one word; other opcodes and lengths are rejected |
| CommandReader.Reader.ReadMetadata | ComposerClient.cpp:810-821 | consumes pairs of words, leaving a last odd one |
| CommandReader.Reader.ReadBufferCommand | ComposerClient.cpp:892-964 | reads a buffer command, rejects its length, or says that the handler leaves its frame |
| CommandReader.Reader.ReadRequest | ComposerClient.cpp:705-792 | reads what the frame decodes to, consuming its length, or says that the handler leaves its frame |
| CommandReader.Reader.ReadPlainRequest | ComposerClient.cpp:705-792 | the same for queries, settings and skipped commands |
| CommandReader.Reader.ParseCommand | ComposerClient.cpp:705-792 | executes the decoding of the frame, or nothing |
| CommandReader.Reader.ParseFrame | ComposerClient.cpp:683-703 | a frame is left at its end; fatal exactly for a rejected frame with words or an odd word left over |
| CommandReader.Reader.ParseOne | ComposerClient.cpp:683-703 | one turn of the loop is one turn of the pure parse |
| CommandReader.Reader.ParseAll | ComposerClient.cpp:683-703 | executes exactly the requests of the pure parse and returns NONE exactly when all words were consumed |
| CommandReader.Transmit | ComposerClient.cpp:683-703 | writer to reader: the same commands are executed in order, NONE, no LOG_FATAL on either side; the HAL gets exactly the calls that the commands, with the selections and buffers before them, say |
| Session.StoreIsMapUpdate | ComposerClient.cpp:1422-1484 | storing in a slot changes that slot alone |
| HalCalls.Addressed | ComposerClient.cpp:1422-1484 | a buffer command uses the vector of its kind, of the selected display and layer, at its own slot |
| HalCalls.StreamAddressed | ComposerClient.cpp:1422-1484 | a sideband stream uses the one entry of the selected layer |
| HalCalls.SettingCall | ComposerClient.cpp:871-890 | a setter is one HAL call for the selected display and layer, and its error the only reply |
| HalCalls.QueryCall | ComposerClient.cpp:966-990 | so is a query, whose answer is replied |
| HalCalls.SelectCalls | ComposerClient.cpp:852-869 | selecting calls nothing |
| HalCalls.BroughtBuffer | ComposerClient.cpp:1153-1186 | a buffer that came along reaches the HAL as the newest import, or as null if empty, and then its own entry; an error is replied exactly when the import, the call or the update fails |
| HalCalls.CachedBuffer | ComposerClient.cpp:1486-1509 | a CACHED command passes the HAL what its entry holds and changes no entry; without one its error is replied |
| HalCalls.BroughtStream | ComposerClient.cpp:1307-1330 | the same for a sideband stream that came along |
| HalCalls.CachedStream | ComposerClient.cpp:1307-1330 | the same for a cached one |
| HalCalls.OtherEntries | ComposerClient.cpp:1422-1528 | a buffer command leaves the entries of every other display, layer, kind or slot alone |
| HalCalls.StreamKeepsEntries | ComposerClient.cpp:1422-1528 | a sideband stream changes nothing but the stream of its layer |
| HalCalls.ExecIsNext | ComposerClient.cpp:852-1389 | executing the delivery of a written command has the effect the command says on calls, imports and entries |
| HalCalls.StreamCalls | ComposerClient.cpp:683-703 | so has executing a whole written stream |
| SessionProofs.ExecDisplays | ComposerClient.cpp:1511-1528 | a command changes the cache only by what it stores |
| SessionProofs.FenceDisposedOnce | ComposerClient.cpp:1153-1186 | the fence is the HAL's if its call, with the command's own buffer, succeeded, otherwise closed once |
| SessionProofs.CallsOfCommand | ComposerClient.cpp:852-1389 | a setter or query is one call of just that, a buffer command at most one, a select none, for the selected display and layer, which only the select commands change |
| SessionProofs.SidebandCall | ComposerClient.cpp:1307-1330 | a stream reaches the HAL unless its lookup fails, as the newest import, null, or what the layer holds |
| SessionProofs.PresentOrValidateCalls | ComposerClient.cpp:992-1032 | validates exactly when presenting failed, and replies what the last call answered |
| SessionProofs.OneReplyPerCommand | ComposerClient.cpp:871-1389 | a command replies at most once, errors with its own location |
| SessionProofs.ErrorsFollowItems | ComposerClient.cpp:683-703 | errors of a run name its commands in increasing order |
| SessionProofs.ErrorLocations | IComposerCommandBuffer.h:728-730 | replied errors of a parsed stream carry header offsets, strictly increasing |
| Replies.WriteError | IComposerCommandBuffer.h:163-169 | appends one SET_ERROR frame with location and code |
| Replies.ErrorArrives | IComposerCommandBuffer.h:163-169 | a client finds the error of such a frame and goes on behind it |
| Replies.ErrorCodeRoundTrip | IComposerCommandBuffer.h:162-168 | no two errors share a number |
| Replies.ErrorsReadBack | IComposerCommandBuffer.h:163-169 | the output of any replies reads back to exactly their errors, as errors and not just numbers, in order |
| Replies.ChangedFramesAreFramed | IComposerCommandBuffer.h:178-198 | the frames of changed types are whole and none is SET_ERROR |
| Replies.ErrorsInOutput | ComposerClient.cpp:683-703 | the SET_ERROR frames written for a parsed stream carry header offsets of its commands, strictly increasing |
| SlotConservation.StoreKeepsHolds | ComposerClient.cpp:100-123 | overwriting an entry drops its buffer and takes the new one |
| SlotConservation.ImportIsNew | ComposerClient.cpp:56-81 | an import is in no slot, not freed and not leaked before; it fails exactly when the mapper refuses something to import |
| SlotConservation.LedgerStores | ComposerClient.cpp:100-123 | replacing an entry frees what it held, once |
| SlotConservation.ExecLedger | ComposerClient.cpp:1486-1528 | what a command imports, stores and frees |
| SlotConservation.ArrivedConserves | ComposerClient.cpp:1486-1528 | every command conserves buffers up to its leak |
| SlotConservation.FreedEntries | ComposerClient.cpp:100-123 | destroying distinct entries frees exactly the buffers they hold, once each |
| SlotConservation.DropConserves | ComposerClient.cpp:100-123 | dropping entries conserves buffers |
| SlotConservation.BuffersResized | ComposerClient.cpp:404-418 | creating a layer drops exactly the entries its slot count cuts off |
| SlotConservation.TargetsCut | ComposerClient.cpp:569-580 | a smaller client target count drops exactly the entries cut off |
| SlotConservation.LayerDropped | ComposerClient.cpp:420-430 | destroying a layer drops all its entries, the sideband one too |
| SlotConservation.StepDrops | ComposerClient.cpp:404-430 | a layer or slot call drops the entries under some keys and frees exactly what they hold |
| SlotConservation.StepConserves | ComposerClient.cpp:404-430 | every command or client call conserves buffers |
| SlotConservation.LostExactlyWhenSlotMissing | ComposerClient.cpp:1511-1528 | an imported buffer reaches a slot if and only if the slot exists |
| SlotConservation.RunConserves | ComposerClient.cpp:1422-1528 | over any run each imported buffer is in one slot, freed once, or leaked |
| SlotHistory.CommandEntry | ComposerClient.cpp:1511-1528 | a command changes the one entry of its own kind, display, layer and slot, and creates or removes none |
| SlotHistory.SelectionOfRun | ComposerClient.cpp:852-869 | after any run the selected display and layer are those of the last select commands |
| SlotHistory.EntriesAfterCall | ComposerClient.cpp:404-430 | layer and slot calls leave as many entries as they ask for, none of a destroyed layer; new ones are null |
| SlotHistory.CallEntry | ComposerClient.cpp:404-430 | a layer or slot call leaves an entry alone, removes it, or creates it as null |
| SlotHistory.SlotsHoldLastStored | ComposerClient.cpp:1422-1528 | after any run of commands and calls a slot holds what was last stored since it came into being, or null |
| SlotHistory.CachedPassesLastStored | ComposerClient.cpp:1486-1509 | a CACHED command passes the HAL the buffer last put in that slot of the display and layer last selected; if the slot does not exist the HAL is not called and the error is reported |
| SlotHistory.SlotPastTheVector | ComposerClient.cpp:1511-1528 | an instance of the leak |
| Planner.AssignMeans | HwcDisplay.cpp:865-903 | the switch gives a plane exactly to an eligible layer while none below was refused |
| Planner.AssignType | HwcDisplay.cpp:865-903 | what type a layer may get and when it counts as changed |
| Planner.GreedyResult | HwcDisplay.cpp:865-903 | the loop fills planes with the eligible prefix, as far as they go, and counts changes exactly |
| Planner.GreedyType | HwcDisplay.cpp:865-903 | the type the loop gives each layer, from what it asks for and the types below it |
| Planner.TypeMeans | HwcDisplay.cpp:852-918 | a layer gets a plane if and only if it asks for one, can have one, and one is left for it; the promotion is the last plane left |
| Planner.PromotionMeans | HwcDisplay.cpp:905-914 | when the promotion fires all other layers are on planes and exactly one change was counted |
| Planner.PlanReports | HwcDisplay.cpp:852-918 | the reported count is the number of layers whose type differs from the request |
| Planner.PlanIsAdmissible | HwcDisplay.cpp:852-918 | plans give planes to eligible layers only, none above a client layer, within the plane count |
| Planner.PromotedIsAdmissible | HwcDisplay.cpp:905-914 | so do promoted plans |
| Planner.DevicesInPrefix | HwcDisplay.cpp:834-850 | no admissible assignment has planes outside the eligible prefix |
| Planner.Outdone | HwcDisplay.cpp:905-914 | an overlooked list has an admissible assignment with more layers on planes |
| Planner.NotOutdone | HwcDisplay.cpp:852-918 | any other list has none |
| Planner.PlanIsOptimal | HwcDisplay.cpp:828-914 | the plan has the most layers on planes if and only if the list is not overlooked |
| Planner.WithoutPassThroughOptimal | HwcDisplay.cpp:860-914 | layers that ask for Device, Client, Cursor or Sideband are never overlooked |
| Planner.OverlookedInstance | HwcDisplay.cpp:905-914 | an instance of a plane left idle |
| Planner.GreedyAccepted | HwcDisplay.cpp:111-118 | the loop repeats itself on accepted types, without changes |
| Planner.PlanIsIdempotent | HwcDisplay.cpp:852-918 | validate, accept, validate gives the same plan and no change, promoted or not |
| Planner.PaintersOrder | HwcDisplay.cpp:470-501 | the plane list shows layers in z order if and only if no device layer is above a client layer |
| Planner.LayeredShows | HwcDisplay.cpp:470-501 | layered types show their layers in z order, whatever the layers are |
| Planner.ShownInOrder | HwcDisplay.cpp:470-501 | what is shown are the device and client layers, each once, in the order of the map |
| Planner.PlaneListFits | HwcDisplay.cpp:623-635 | the list of showable types is no longer than the planes |
| Planner.SamePicture | HwcDisplay.cpp:470-501 | for any associative blending the planes show the picture of painting in z order, also when layers look alike |
| ZOrder.EmplaceMeans | HwcDisplay.cpp:857-861 | emplacing keeps all entries and adds one unless its key is present |
| ZOrder.SortedKeys | HwcDisplay.cpp:857-861 | the sorted map has exactly the keys of the layers |
| ZOrder.NoneLostIffDistinct | HwcDisplay.h:146-147 | no layer is lost in the map if and only if no two share a z |
| ZOrder.KeyOrderIsZOrder | HwcDisplay.h:146-147 | converted keys order two layers by z if and only if both or neither z are below 2^31 |
| ZOrder.TruncateMeans | HwcLayer.h:106-107 | the conversion to int loses less than one and never goes away from zero |
| HwcDisplay.Display.LayerSupported | HwcDisplay.cpp:834-850 | layerSupported is eligibility with a plane left; what makes a layer eligible is CapableFits |
| HwcDisplay.CapableFits | HwcDisplay.cpp:834-850 | what a capable layer is, in its own fields: a buffer of a supported format, no transforms, and a crop that rounded toward zero is the frame, of more than one pixel each way |
| HwcDisplay.Display.CreateLayer | HwcDisplay.cpp:120-127 | a new layer with the next id behind the others |
| HwcDisplay.Display.RebuildSorted | HwcDisplay.cpp:857-861 | the map holds the layers sorted by z |
| HwcDisplay.Display.PlanLayer | HwcDisplay.cpp:865-903 | one turn of the loop is one turn of the pure planner |
| HwcDisplay.Display.PlanLayers | HwcDisplay.cpp:865-903 | the loop assigns the greedy types |
| HwcDisplay.Display.PromoteTop | HwcDisplay.cpp:905-914 | the promotion changes the top layer alone, exactly when it applies |
| HwcDisplay.Display.ValidateDisplay | HwcDisplay.cpp:852-918 | every layer of the map gets its planned type, others keep theirs; in the layers' own fields: exactly the layers that ask for a plane, fit one and find one left get one |
| HwcDisplay.PlannedIsRight | HwcDisplay.cpp:852-918 | planned types are right in the layers' own fields, those without a plane included |
| HwcDisplay.Display.AcceptDisplayChanges | HwcDisplay.cpp:111-118 | no layer differs from its request afterwards |
| HwcDisplay.Display.Settle | HwcDisplay.cpp:111-118 | validate, accept, validate: same types, no change reported, no layer changed |
| HwcDisplay.Display.Revalidate | HwcDisplay.cpp:852-918 | validating what was just accepted changes and reports nothing |
| HwcDisplay.Display.GetChangedCompositionTypes | HwcDisplay.cpp:276-298 | without arrays it counts the changed layers, with arrays it fills them in id order |
| HwcDisplay.ChangedMeans | HwcDisplay.cpp:276-300 | what is reported are the layers whose type is another than the one they asked for, with the type they have now, in id order |
| HwcDisplay.Display.ReportChanges | Hwc.cpp:448-483 | the two calls return exactly the changed layers |
| HwcDisplay.Display.ValidateAndCount | HwcDisplay.cpp:852-918 | validates; with distinct z the count is the number of changed layers |
| HwcDisplay.Display.HalValidate | Hwc.cpp:448-513 | the layers get the planned types and the service exactly the changed ones in id order, with distinct z as many as were counted |
| Reporting.ReportValidation | ComposerClient.cpp:966-990 | the client, decoding the numbers, reads back exactly the layers whose type the plan changed, in id order, with their new types, and no error |
| Reporting.TypeRoundTrip | Hwc.cpp:466-471 | no two types share a number |
| HwcDisplay.ReportedCount | HwcDisplay.cpp:276-298 | the planner's count and the list of changed layers agree |
| HwcDisplay.Display.GetSortedLayersByZOrder | HwcDisplay.cpp:470-501 | device layers in z order, then the client target, at the highest z of its layers, if used; without a plan nothing if a layer is not shown |
| HwcDisplay.Display.PresentDisplay | HwcDisplay.cpp:668-681 | NOT_VALIDATED exactly when nothing can be listed; the list is in z order if and only if the validated types are layered, and fits the planes if they are showable |
| HwcDisplay.Display.ValidateAndList | HwcDisplay.cpp:470-501 | after validation the list fits the planes; with distinct z below 2^31 it shows every device and client layer of the display, in z order |
| HwcDisplay.ClearZMeans | HwcDisplay.h:146-147 | keys are distinct and not negative if and only if z values are distinct and below 2^31 |
| HwcDisplay.AllListed | HwcDisplay.cpp:857-861 | with distinct z the map lists every layer |
| HwcDisplay.AllInZOrder | HwcDisplay.cpp:857-861 | and below 2^31 in z order |
| HwcDisplay.EverythingShown | HwcDisplay.cpp:470-501 | so exactly the device and client layers of the display are shown, in z order |
| HwcDisplay.SamePictureShown | HwcDisplay.cpp:470-501 | for any associative blending a display's planes show the picture of its shown layers painted in z order |
| HwcDisplay.SwappedAfterValidation | HwcDisplay.cpp:668-681 | an instance of a device layer shown below the client target although it is above it |
| HwcDisplay.Display.CommitFrame | HwcDisplay.cpp:682-698 | of a list that fits, each layer with a framebuffer gets a plane of its own, in list order |
| HwcDisplay.Display.ValidateAndCommit | HwcDisplay.cpp:623-716 | the map holds the layers of the display and the types are the plan for it; its list fits the planes, with distinct z below 2^31 every device and client layer is in it, in z order, and each listed layer with a framebuffer gets a plane of its own |
| HwcDisplay.Display.AssignPlanes | HwcDisplay.cpp:623-635 | layers with a framebuffer get distinct planes in list order, none is dropped while they fit |
| PrimeCache.DrawsAreDefined | PrimeCache.cpp:21-39 | the eviction loop never divides by zero if and only if the limit is positive |
| PrimeCache.Kernel.PrimeFdToHandle | PrimeCache.cpp:83-83 | an import gives the buffer's open handle or a new one |
| PrimeCache.Kernel.GemClose | PrimeCache.cpp:49-57 | a close fails on a handle that is not open |
| PrimeCache.PrimeCache.Drop | PrimeCache.cpp:31-34 | the handle of a dropped entry was open: no handle is closed twice |
| PrimeCache.PrimeCache.Select | PrimeCache.cpp:23-28 | the selection lists exactly the entries of the layer |
| PrimeCache.PrimeCache.EvictOne | PrimeCache.cpp:29-37 | one entry of the layer less, statistics in step |
| PrimeCache.PrimeCache.OptimizeLayer | PrimeCache.cpp:21-39 | only entries of the layer go, and just enough to make room for one |
| PrimeCache.PrimeCache.OptimizeAll | PrimeCache.cpp:41-47 | every layer above the limit is left with room for one more, the others keep all their entries |
| PrimeCache.PrimeCache.AddEntry | PrimeCache.cpp:71-75 | the imported handle is entered, within the limit |
| PrimeCache.PrimeCache.FindEntry | PrimeCache.cpp:77-90 | returns the open handle an import would give, 0 exactly for an import that fails; the bound is kept |
| PrimeCache.PrimeCache.EraseLayerCache | PrimeCache.cpp:59-69 | exactly the entries of the layer go, and its count |
| PrimeCache.PrimeCache.Clear | PrimeCache.cpp:92-98 | nothing is cached or open |
| PrimeCache.HandlesConserved | PrimeCache.cpp:49-98 | every handle ever opened is cached or was closed once, never both |
| PrimeCache.DropAgrees | PrimeCache.cpp:31-35 | evicting and counting down keep the two maps in step |
| PrimeCache.AddAgrees | PrimeCache.cpp:71-75 | entering and counting up keep the two maps in step |
| HotPlug.CountUpdate | HwcHotPlug.cpp:141-157 | changing one connector changes the number connected by that one |
| HotPlug.ServeKeeps | HwcHotPlug.cpp:131-161 | serving a connector keeps ids dense, displays with their connectors, and the primary connected |
| HotPlug.PassKeeps | HwcHotPlug.cpp:131-161 | so does a whole pass |
| HotPlug.ConnectorAfterPass | HwcHotPlug.cpp:131-161 | after a pass each connector is connected exactly as its reading and its history say |
| HotPlug.NewIdsInOrder | HwcHotPlug.cpp:109-161 | connectors first seen in one pass get their ids in the order of the connectors, behind the displays there were |
| HotPlug.RunsAreConsistent | HwcHotPlug.cpp:131-183 | so does every run of passes; once a display exists some connector is connected |
| HotPlug.RunsExtend | HwcHotPlug.cpp:109-161 | a later pass never renames or removes a display or disconnects the primary |
| HotPlug.PassStarts | HwcHotPlug.cpp:180-182 | a pass brings up the first display if and only if some connector is connected and comes up |
| HotPlug.HotPlug.LoadDisplayConfiguration | HwcHotPlug.cpp:109-129 | a new connector gets the next id; a failed one leaves no trace |
| HotPlug.HotPlug.Disconnect | HwcHotPlug.cpp:134-146 | the limit goes down by three and every layer is within it |
| HotPlug.HotPlug.Connect | HwcHotPlug.cpp:147-159 | the limit goes up by three if the display comes up |
| HotPlug.HotPlug.HookConnector | HwcHotPlug.cpp:131-161 | one connector: limit, bound and connection state |
| HotPlug.HotPlug.HookEventHotPlug | HwcHotPlug.cpp:131-161 | a pass keeps the limit at three per connected connector and all layers within it |
| HotPlug.HotPlug.InitDisplays | HwcHotPlug.cpp:163-183 | polling stops at the first pass that starts a display, with a limit of at least three |
| HotPlug.HotPlug.Handle | PrimeCache.cpp:21-98 | a uevent is a whole pass over the connectors, other events leave the connections alone; an import enters the handle it returns, and limit and bound are kept |
| HotPlug.HotPlug.Run | PrimeCache.cpp:21-98 | the connections are those of the passes in the run, in order; over any run the limit stays positive and respected, and every import that works gives a handle |
| Framebuffers.Importer.RmFb | platformrcar.cpp:213-218 | removal fails on what is not there; removals of what is shown are recorded |
| Framebuffers.Importer.ImportBuffer | platformrcar.cpp:186-206 | only a null handle is an error; a framebuffer that cannot be made leaves id 0 |
| Framebuffers.Importer.ReleaseBuffer | platformrcar.cpp:213-218 | removes the framebuffer of a buffer, once |
| Framebuffers.DrmHwcBuffer.Move | HwcBuffer.h:52-54 | the moved-from buffer owns nothing |
| Framebuffers.DrmHwcBuffer.Clear | HwcBuffer.cpp:33-38 | what was owned is removed, nothing is owned |
| Framebuffers.DrmHwcBuffer.Assign | HwcBuffer.h:60-66 | what was held is removed first; a self-move keeps nothing |
| Framebuffers.DrmHwcBuffer.ImportBuffer | HwcBuffer.cpp:40-50 | owns the new framebuffer, or stays empty for a null handle |
| Framebuffers.Destroy | HwcBuffer.h:56-58 | destroying a list removes each framebuffer once |
| Framebuffers.DisplayBuffers.ImportLayer | HwcDisplay.cpp:686-697 | a layer is skipped exactly when it has no handle |
| Framebuffers.DisplayBuffers.Import | HwcDisplay.cpp:682-698 | each layer kept owns a framebuffer of its own, or none if it could not be made |
| Framebuffers.DisplayBuffers.Apply | HwcDisplay.cpp:536-666 | the new layers become active and the old ones are released, after the commit |
| Framebuffers.DisplayBuffers.Present | HwcDisplay.cpp:162-184 | live framebuffers are those of the active composition; what one present adds to those removed early |
| Framebuffers.DisplayBuffers.PresentAll | HwcDisplay.cpp:536-716 | over any run a shown framebuffer is removed early if and only if a commit fails while one is shown |
| Framebuffers.FramebuffersConserved | HwcBuffer.h:52-66 | every framebuffer created is owned by one layer of the active composition or was removed exactly once |
| Framebuffers.ShownMeans | HwcDisplay.cpp:664-665 | what is shown is the last frame that reached the commit |
| Framebuffers.FailedCommitTearsDown | HwcDisplay.cpp:642-665 | an instance of the early removal |
| Fences.Descriptors.Dup | HwcLayer.h:92-98 | a copy is a new descriptor that has no owner yet |
| Fences.Descriptors.Close | autofd.h:39-42 | closes a descriptor that is open, never one that was closed |
| Fences.UniqueFd.Release | autofd.h:44-48 | gives the descriptor up |
| Fences.UniqueFd.Set | autofd.h:50-56 | closes what was held and takes the new one |
| Fences.UniqueFd.Move | autofd.h:29-32 | ownership moves |
| Fences.UniqueFd.Assign | autofd.h:34-37 | ownership moves, what was held is closed; a self-move changes nothing |
| Fences.UniqueFd.Destroy | autofd.h:39-42 | closes what is held |
| Fences.LayerFences.SetAcquireFence | HwcLayer.h:92-94 | takes a copy and closes the one before |
| Fences.LayerFences.SetReleaseFence | HwcLayer.h:96-98 | the same for the release fence |
| Fences.LayerFences.TakeReleaseFence | HwcLayer.h:99-101 | hands the fence out |
| Fences.LayerFences.SetLayerBuffer | HwcLayer.cpp:37-51 | consumes the fence on every path, keeps a copy only for layers that use their buffer |
| Fences.LayerFences.SetClientTarget | HwcDisplay.cpp:747-756 | consumes the fence and keeps a copy |
| Fences.LayerFences.PopulateDrmLayer | HwcLayer.cpp:139-147 | moves the acquire fence into the layer to commit |
| Fences.ReadFence | IComposerCommandBuffer.h:807-828 | a copy of a single descriptor, otherwise nothing |
| Fences.ParseSetBuffer | ComposerClient.cpp:892-929 | a layer that uses buffers gets the buffer and a new copy of the fence in place of its own, none exactly if one of the two copies fails; otherwise the layer is as before, and no descriptor is left over |
| Fences.DisplayFences.CreateLayer | HwcDisplay.cpp:120-127 | a new layer owns no fence and the others are as before |
| Fences.DisplayFences.DestroyLayer | HwcDisplay.cpp:129-147 | closes the fences the layer still has and leaves the others alone |
| Fences.DisplayFences.SetBuffer | ComposerClient.cpp:1153-1186 | the buffer commands change the layer they name alone, and keep every descriptor with one owner |
| Fences.DisplayFences.SyncFence | HwcDisplay.cpp:149-156 | each layer gets a new copy of the frame's fence in place of the one it had, where it can be made |
| Fences.DisplayFences.TakeReleaseFences | HwcDisplay.cpp:443-468 | hands out exactly the release fences of the layers visited, everything else stays |
| Fences.DisplayFences.DestroyFrame | HwcDisplay.cpp:664-665 | closes the fences of a composition |
| Fences.DisplayFences.Present | HwcDisplay.cpp:668-716 | presented layers give up their acquire fences; a committed frame has exactly those of the layers with a buffer, otherwise the frame before stays |
| Fences.DisplayFences.PopulateAll | HwcDisplay.cpp:682-698 | every presented layer gives up its acquire fence |
| Fences.FencesConserved | autofd.h:24-64 | every descriptor ever made is loose, owned by exactly one holder, or closed exactly once |
| FenceRuns.Client.Handle | HwcDisplay.cpp:120-147 | each call has its stated effect on the layers by their ids, on the client target, on the committed fences and on what the display owes |
| FenceRuns.Client.Run | autofd.h:24-64 | over any run each call has its effect on the state before it, what is not the display's is what was before plus what it owes, and every descriptor is loose, with one owner, or closed once |
| FenceRuns.Client.Present | HwcDisplay.cpp:668-716 | the acquire fences of presented layers with a buffer become those of the frame if it is committed |
| FenceRuns.Client.Sync | HwcDisplay.cpp:149-156 | every layer has a new copy of the out fence, where it could be made |
| FenceRuns.Client.TakeFences | HwcDisplay.cpp:443-468 | the caller has the release fences of the visited layers, which then hold none |
| FenceRuns.LooseOfRun | HwcDisplay.cpp:443-468 | what a run of calls adds to the descriptors that are not the display's: its out fences and the release fences it handed out |
| FenceRuns.Client.SeenIsOpen | autofd.h:24-64 | the open descriptors are exactly those held by layers, the client target and the committed frame, and the loose ones |
| WorkerProtocol.WorkerKeeps | worker.cpp:56-95 | steps of the worker keep the protocol's invariant |
| WorkerProtocol.ControlKeeps | vsyncworker.cpp:55-62 | steps of controlVSync keep it |
| WorkerProtocol.ExitKeeps | worker.cpp:31-54 | steps of initWorker and exitWorker keep it |
| WorkerProtocol.RunKeeps | worker.cpp:31-95 | every interleaving keeps it |
| WorkerProtocol.NoLostWakeup | worker.cpp:45-95 | once exitWorker has notified the worker is not parked; enabled, it is parked only before a pending signal |
| WorkerProtocol.EnabledOnReturn | vsyncworker.cpp:55-62 | when controlVSync(true) returns the worker is not parked |
| WorkerProtocol.JoinedMeansLeft | worker.cpp:45-54 | join returns only when the worker has left |
| WorkerProtocol.ExitStepCounts | worker.cpp:81-95 | after the notify each move brings the worker nearer to the end, no other thread sets it back |
| WorkerProtocol.LeavesWithinSixMoves | worker.cpp:81-95 | the worker leaves within six moves, whatever is interleaved |
| WorkerProtocol.OnlyControlBlocks | vsyncworker.cpp:55-62 | then only a controlVSync keeps it from moving, for at most three steps |
| WorkerProtocol.EnabledReachesWork | vsyncworker.cpp:107-125 | enabled and left to itself, the worker is at the vertical blank in five steps |
| WorkerProtocol.DisabledParks | vsyncworker.cpp:107-125 | disabled and left to itself, it sleeps on the condition in eight steps |
| WorkerProtocol.WorkNeedsEnabled | vsyncworker.cpp:107-125 | the worker waits for a blank only when it found vsync enabled, and nothing but controlVSync(true) enables it |
| WorkerProtocol.NoWorkUntilEnabled | vsyncworker.cpp:107-125 | over every interleaving a disabled worker waits for no blank before it is enabled |
| WorkerProtocol.DisabledOnReturn | vsyncworker.cpp:55-62 | after controlVSync(false) has returned the worker waits for no blank before a later controlVSync(true) has assigned |
| WorkerProtocol.ControlReturns | vsyncworker.cpp:55-62 | a whole controlVSync leaves vsync as asked for, the lock free and the worker awake |
| WorkerProtocol.ExitReturns | worker.cpp:45-54 | a whole exitWorker sets mExit, wakes the worker and joins it |
| WorkerProtocol.InitReturns | worker.cpp:31-43 | initWorker leaves a worker that may run |
| VSync.WithinAFrame | vsyncworker.cpp:64-83 | an instant in phase is the next one if and only if it is within a frame |
| VSync.PhasedIsNext | vsyncworker.cpp:77-83 | the result is the next instant in phase if and only if the clock has reached the last timestamp or is short by whole frames |
| VSync.EarlyClockSkipsAFrame | vsyncworker.cpp:77-83 | an instance of a skipped frame |
| VSync.SplitRecombines | vsyncworker.cpp:92-104 | seconds and nanoseconds recombine, with nanoseconds in range if and only if time is not negative or whole seconds |
| VSync.PhasedAdvances | vsyncworker.cpp:87-105 | a timestamp is later than its clock by at most a frame |
| VSync.StampsKeepPhase | vsyncworker.cpp:77-105 | over any run timestamps strictly increase and are in phase with each other |
| VSync.StampsAreNext | vsyncworker.cpp:77-105 | each timestamp of a run is the first instant in the run's phase after its own reading of the clock |
| VSync.NeighboursAreAFrameApart | vsyncworker.cpp:77-105 | neighbouring timestamps are one frame apart if and only if the clock is read within a frame of the first |
| VSync.PhaseRestarts | vsyncworker.cpp:55-62 | without a last timestamp the first one is a frame behind the clock of the first sleep that works |
| VSync.VSyncWorker.GetPhasedVSync | vsyncworker.cpp:77-83 | the next instant in phase once the clock has reached the last timestamp |
| VSync.VSyncWorker.FrameMeans | vsyncworker.cpp:87-91 | as many frames as the refresh rate says fill a second, up to a nanosecond each |
| VSync.VSyncWorker.SyntheticWaitVBlank | vsyncworker.cpp:87-105 | sleeps until the phased time of the refresh rate's frame and reports it |
| VSync.VSyncWorker.Routine | vsyncworker.cpp:119-169 | what is reported and remembered for each outcome of the wait |
| VSync.VSyncWorker.RunSynthetic | vsyncworker.cpp:107-169 | a run without hardware blanks reports the stamps whose phase is proved, a frame apart wherever the clock keeps up |
| VSync.VSyncWorker.Restart | vsyncworker.cpp:55-62 | after controlVSync the phase is a new one, a frame after the first reading of the clock, and every timestamp is the next instant in it |

## Left out

- HIDL transport, message queues and event flags: the queue is a sequence of words and a list of handles.
- IMapper, gralloc, DRM ioctls, sysfs, netlink, poll and property reads: outcomes are parameters.
- SET_LAYER_PER_FRAME_METADATA_BLOBS and client targets of length 0: their reads are not tied to the frame and may leave the buffer, so what they do is not modelled.
- Stream.Parse: stops in front of such a frame and says so in its ending.
- CommandReader.Reader.ParseOne: stops in front of such a frame and says so.
- CommandReader.Reader.ParseAll: stops in front of such a frame and says so.
- CommandReader.Reader.ParseFrame: says of a handler that leaves its frame only that it does, and stops in front of it.
- CommandReader.Reader.ParseCommand: likewise.
- CommandReader.Reader.ReadRequest: likewise.
- CommandReader.Reader.ReadBufferCommand: likewise, for a client target of length 0.
- CommandReader.Reader.ReadFenceFd: gives the descriptor that readFence duplicates; that the copy is another number, or fails, is in Fences.ReadFence.
- Commands.FenceRoundTrip: likewise speaks of the descriptor that is duplicated.
- CommandWriter.Writer.WriteFence: does not model a temporary handle that cannot be created.
- Commands.Decode: per-frame metadata of odd length is modelled as reading one word less than the frame, which reaches the recovery code of endCommand.
- Other response writers (setDisplayRequests, setReleaseFences, setPresentFence): the chunking proof is given for setChangedCompositionTypes.
- Session state: the client's displays, slots and counters are a value held by the reader, so locking with other threads is not captured.
- Virtual displays: the HAL does not support them, so output buffer slots stay empty.
- Hotplug of a display already known to the client: its cached flags are not modelled, only the creation of its slot data.
- HwcDisplay.Display.CreateLayer: does not model the wrap of the 32-bit layer index.
- Reporting.ReportValidation: the display requests behind the changed types are not modelled; ids are taken to be below 2^32, as indices that do not wrap are.
- HwcDisplay.Display.GetSortedLayersByZOrder: destroying a layer or changing its z between validation and presenting is outside its precondition, because the map keeps pointers and old keys.
- ZOrder.HwcLayer: crop arithmetic is over reals, so float rounding is not captured.
- The calls to the client's callback on hotplug and vsync are not recorded; what is reported is the return value of `VSync.VSyncWorker.Routine`.
- Pass-through setters and getters, mode selection, EDID, colour modes and power modes: one branch each.
- The camera path, readback and dumps: the camera enters only as the clearing of the PRIME cache.
- Fences.DisplayFences.SyncFence: the frame's own release fence is a raw descriptor that is re-exported, so it counts as not owned by the display.
- Fences.DisplayFences.TakeReleaseFences: which layers fit the caller's arrays is a parameter; that they are the first ones by id is not modelled.
- FenceRuns.Client.Handle: calls for unknown layers do nothing, where the source would throw.
- Replies.ErrorsInOutput: the frames of results are taken to be whole frames other than SET_ERROR; for changed types that is proved in Replies.ChangedFramesAreFramed.
- Fences.DisplayFences.Present: the composition is a set of owners; the order of its layers matters for planes only and is in the planner.
- Framebuffers.DisplayBuffers.Import: reallocation of the vector while it grows is not modelled; elements are moved into it once.
- PrimeCache.PrimeCache: imports made while the cache is disabled, and the data race between the hotplug and the composer threads.
- WorkerProtocol: timeouts of the wait are spurious wake-ups; exitWorker before initWorker and destruction order of subclasses are not modelled.
- VSync: 64-bit overflow of nanosecond times, and writes of the last timestamp outside the lock.
