# BrewBlox firmware: a verified model

This Dafny project models the parts of the BrewBlox controller firmware whose correctness is hard to see from reading
one function, and proves what they promise. `dafny verify dfyconfig.toml` checks all of it.

The source's own form is kept. Objects that change are classes with the source's fields and methods
(`EepromObjectStorage`, `EepromDataIn`, `EepromDataOut`, `OneWire`, `OneWireBusBlock`, `OneWireMockDevice`,
`OneWireMockDriver`, `ActuatorDigitalChangeLogged`, `ActuatorDigitalConstrained`, `MutexTarget`, `ActuatorPwm`,
`ActuatorLogicBlock`, `IirFilter`, `FilterChain`). Each method is proved equal to a function on values, and the
theorems are lemmas about those functions, over all inputs and all runs. They say what an answer means without
repeating how it is computed.

## The components

**EEPROM object store** (`Bytes`, `Blocks`, `BlockWrites`, `EepromStreams`, `StoreSpec`, `DisposedRuns`, `PowerCuts`,
`ObjectStorage`, `StoreLaws`, `AllocationCuts`, `DefragCuts`, `StoreRuns`, `CutRuns`, `StoreExamples`). A byte array
holds a chain of blocks, each disposed or an object. The methods read and write single bytes and 16-bit fields; their
contracts say what happens to the decoded chain. A ghost list `cuts` holds the chain after every field write, which is
what a power cut would leave. Proved: the bytes determine the chain; every operation acts on it as its block-level
function; defragmentation ends, keeps every object in order and leaves one disposed block at the end; free-space
accounting is exact; over every run of stores and disposals, whatever they answer, the area stays tiled and in order,
and a caller's map from ids to bytes agrees with the store for every id that never had a write error; an answer OK
means that the data can be read back, but for the exception below; an object can grow by an eighth before it moves;
every power-cut state still decodes and harms at most one other object, and from the chain before a store it follows
exactly whether any cut in it can harm one. After a cut the store can go on for any number of operations:
defragmentation stays right and all other ids follow the caller's map. There is one kind of cut for which this does
not hold, and it is characterised.

**1-Wire search** (`RomOrder`, `RomAddress`, `OneWireBus`, `OneWireSearch`). Every search is a walk through the trie
of the addresses on the simulated bus, one bit exchange with all devices at a time. Repeated searches list every
address once, in order of the bits, and then stop (Maxim Application Note 187, 1-Wire Search Algorithm). The list is
unique, so enumeration has one right answer. A targeted search lists the addresses whose first byte is the family
code.

**Constrained actuators** (`Ticks`, `ChangeLog`, `Constraints`, `ConstraintRuns`, `ConstraintSafety`,
`ConstraintLaws`, `ConstraintTimes`). Any number of actuators with lists of constraints share mutexes and a 32-bit
clock. Over every run, in true time: an active actuator holds the lock of all its mutexes, so sharing excludes; hold
times and minimum times really pass; the five-entry history is the newest part of the whole log, and the durations
taken from it are the true ones. An actuator with minimum times takes a request exactly when they have passed, and is
told exactly what is missing otherwise; so is one that waits for a mutex.

**Logic expressions** (`LogicEval`, `LogicPhrases`, `LogicLaws`, `LogicErrors`, `LogicComparisons`, `LogicBlock`). The
evaluator, which reads a text with one shared position, is proved against syntax trees in both directions: it finds a
value exactly for the texts of the trees of an extended grammar, and exactly the tidy ones among them are in the
intended grammar. Every error points to a character of which it says the truth. A true expression without negations
stays true while readings move further into their limits.

**Slow PWM** (`Products`, `PwmPlan`, `PwmLaws`, `Pwm`, `PwmEffects`, `PwmWindows`). Every variable of an update is a
32-bit unsigned number, and all local variables have the type `u32`, which Dafny checks. Only the correction of a
target and the product by 100 can wrap, and are modelled so. The correction does not wrap when the duty time fits the
setting, even when they are out of step. The achieved duty stays in range, the next update is 1 to 1000 ms away, and a
steady rhythm toggles at exactly stated moments. Up to 50 percent, a run of updates at the times that they ask for
makes the actuator follow the ideal wave for ever, and the achieved value is the setting.

**CRCs** (`Crc8`, `Crc16`) and **filters** (`Iir`, `IirSteps`, `IirFilters`, `FilterChains`, `ChainReadings`). Table
and parity forms equal the bit-serial CRC. A constant offset passes through any chain of filters without loss, in
spite of rounding and step detection; a steady input stays steady; each stage gets its exact share of the inputs;
smoothed readings go on without a jump; partial sums stay within 64 bits.

## Where the code does not keep a promise

Each of these is proved, with an exact condition where the property holds.

- *A relocation that has to defragment loses the object.* The writer for the new block is limited with a size taken
  before defragmentation, which is 0. The answer is a write error, the old bytes are gone and the id keeps a block
  without stored bytes (`GrowingLosesObject`). Such a block cannot be read and is not found for disposal. Storing
  longer data under that id later can answer OK while nothing can be read (`StoringUnderHollowId`, a run from a
  formatted area). `StoreResult` and `StoreKeepsInv` give the exact conditions, checkable before the call; no other id
  is ever touched (`AnyRun`).
- *Free space is reported 3 bytes too high* when the chain has a disposed block but ends in an object
  (`FreeSpaceLaw`); `CheckedInVain` says exactly when a store therefore defragments without success.
- *A power cut right behind the type byte of a new block* turns the stale bytes under it into an object again, with
  the id they had. From a formatted area, a cut while a new object is stored brings the old value of another one back,
  with the right CRC (`PowerCutRevivesOldBytes`). `RevivesIff` says when one such chain reads differently and
  `AllocCutsIff` when any cut of an allocation does: unless the stale id has a block in front, or stores the very same
  bytes behind and the stale size agrees. `StoreCutsIff` says the same of a whole store that does not defragment. All
  these conditions are about the chain before the call. `PowerCut` shows that no cut of any operation affects more
  than one other id.
- *A power cut while an object is moved* loses it, which the source accepts. `MoveCutsIff` says when one move is
  without risk, the contract of `Defrag` when a whole defragmentation is (every object behind the first disposed block
  is hollow), and `StoreCutsAfterDefragIff` when a store that has to defragment is.
- *A power cut right behind the type byte of an old block* that is disposed of in a relocation can leave five disposed
  blocks in a row, when two touched before. If an object lies behind them, the next defragmentation takes it for the
  neighbour of the first disposed block and leaves bytes that are no chain of blocks (`PowerCutBlocksDefrag`, from a
  formatted area; `MoveAcrossDisposed` computes these bytes, `MisplacedMoveBreaks` says what they are). `DefragIff`
  says for which chains defragmentation is right, `StoreCutLaw` that it is right after every other cut, and after this
  one too when no disposed blocks touched before; `GoingOn` that it then stays right.
- *`mergeDisposedBlocks` merges pairs only*: a run of r disposed blocks becomes r/2, rounded up (`MergeHalvesRuns`).
  Its result does not say whether it merged any, only whether it merged the last two blocks: exactly when the chain
  ends in an even number of disposed blocks, and at least two (`MergesLastIff`).
- *A search for a family without members* lists the addresses of another family (`StreamAddresses`, with the exact
  condition).
- *The largest hold time lets two actuators on together*, because the wait for a mutex is one more and wraps to 0
  (`HoldCondition`, an equivalence, for own and for default hold times).
- *Mutual exclusion needs mutexes to be checked last*, as the sort does; nothing else enforces it (`OrderMatters`).
- *A delay requested when the clock shows 0* ends one tick early, and a request that is kept up while the clock goes
  round is delayed again (`DelayPasses`). The same holds for a minimum time: `TakesExactly` says how much the clock
  shows.
- *Malformed groups are skipped*: `(a|)b` has the value of `b` (`MalformedGroupIsSkipped`), and `a!b` that of `!b`.
  `PlainIff` says which accepted texts are in the intended language.
- *A new PWM period* leaves the duty time out of step until the setting is applied again. A period below the duty time
  makes the off time wrap (`OffTimeFits`). Otherwise the arithmetic is right for every history when the setting is at
  least 25 percent, for duty times above half of the period, or at most 75 percent, for others (`FittingCorrects`).
  Beyond these bounds some history makes a subtraction wrap (`HighSettingIsSafe`, `LowSettingIsSafe`, equivalences
  over all periods): 100 percent with the period changed from 4 to 8 seconds is an example (`LongerPeriodFails`), in
  which the actuator waits a second too long (`LongerPeriodWaits`). For each single period, the current on or off time
  must be long: `ShortHistoryCorrects` and `LongOnFails`, `LongOffFails` say how long is short enough and how long is
  too long.
- *The achieved percentage wraps* when the counted on-time reaches about twelve hours (`PercentageIsTrue`).
- *At 0 and 100 percent the window counts time that is too old*: when the current on-off period is longer than two PWM
  periods, the off time (or on-time) before it is counted as if it were recent. `LowWindowIsTrue` and
  `HighWindowIsTrue` say exactly when the window shows the on-time of the last two PWM periods, `LowWindowMisses`
  gives an example.
- *A jump of the input by exactly the step threshold* is noticed by the first filter only: the steepest answer of the
  other two stays below their largest derivative (`SteepestRise`, `JumpIsNoticed`, for a threshold of 1).

## Assumptions

- The order of the comparison results (false, true, the two kinds of empty, errors) is inferred from how the code
  compares them; the generated enumeration is not part of this model.
- An actuator takes the state it is told. The duty fraction is the exact ratio of the setting to 100 percent.
- A put of one 8-bit or 16-bit field is atomic under power cuts. A 16-bit field has its low byte first, as on the
  platform of the firmware.

## Model

| member | source | states |
|---|---|---|
| `Blocks.EncodeInjective` | controlbox/src/cbox/EepromObjectStorage.h:355-373 | the bytes of the object area determine the chain of blocks |
| `Blocks.AllocSkips` | controlbox/src/cbox/EepromObjectStorage.h:438-444 | the search for room passes over every object and every disposed block that is too small: first fit |
| `Blocks.MergeKeepsObjects` | controlbox/src/cbox/EepromObjectStorage.h:541-570 | merging disposed blocks keeps all objects in order |
| `Blocks.MergeHalvesRuns` | controlbox/src/cbox/EepromObjectStorage.h:546-568 | one merge pass turns a run of r disposed blocks into r/2, rounded up |
| `Blocks.MoveProgress` | controlbox/src/cbox/EepromObjectStorage.h:497-539 | moving the first disposed block backwards keeps all objects in order and leaves one object fewer behind it: the termination measure of defragmentation |
| `Blocks.MoveRuns` | controlbox/src/cbox/EepromObjectStorage.h:497-539 | a move makes no run of disposed blocks longer than two, so one merge pass per round is enough |
| `Blocks.CompactResult` | controlbox/src/cbox/EepromObjectStorage.h:298-300 | the loop of merging and moving ends with at most one disposed block, at the end, and all objects in order |
| `Blocks.DefragResult` | controlbox/src/cbox/EepromObjectStorage.h:292-301 | entered with runs of at most four disposed blocks, defragmentation keeps every object but a half-made one and leaves at most one disposed block, at the end |
| `Blocks.OneMoreOthers` | controlbox/src/cbox/EepromObjectStorage.h:456-474 | an allocation that is cut after any write leaves every object alone except possibly one id |
| `BlockWrites.Join` | controlbox/src/cbox/EepromObjectStorage.h:562-564 | overwriting one size field turns two disposed blocks into one |
| `BlockWrites.Split` | controlbox/src/cbox/EepromObjectStorage.h:456-470 | overwriting one size field turns one block into two of the same total size |
| `BlockWrites.Lift` | controlbox/src/cbox/EepromObjectStorage.h:561-564 | a write inside one block of the image changes that block of the chain and no other |
| `EepromStreams.EepromDataIn.Next` | controlbox/src/cbox/DataStreamEeprom.h:96-104 | reads the byte at the offset and moves on, 0 at the end of the region |
| `EepromStreams.EepromDataIn.Skip` | controlbox/src/cbox/DataStreamEeprom.h:107-113 | skips at most the rest of the region and says whether all was skipped |
| `EepromStreams.EepromDataOut.Write` | controlbox/src/cbox/DataStreamEeprom.h:68-76 | writes one byte inside the region and refuses at its end |
| `ObjectStorage.EepromObjectStorage.Init` | controlbox/src/cbox/EepromObjectStorage.h:481-495 | an area with the header keeps its chain, any other becomes one disposed block |
| `ObjectStorage.EepromObjectStorage.Clear` | controlbox/src/cbox/EepromObjectStorage.h:255-260 | the area becomes one disposed block |
| `ObjectStorage.EepromObjectStorage.GetBlockReader` | controlbox/src/cbox/EepromObjectStorage.h:355-373 | stands behind the header of the next block of the type, or at the end of the chain |
| `ObjectStorage.EepromObjectStorage.GetObjectReader` | controlbox/src/cbox/EepromObjectStorage.h:389-415 | stands at the data of the first object with the id and gives its stored or reserved length |
| `ObjectStorage.EepromObjectStorage.NewObjectWriter` | controlbox/src/cbox/EepromObjectStorage.h:430-479 | allocates as the block-level function does; the power-cut states are exactly the four or six listed chains, of which the one behind the type byte holds the stale object; each has one disposed block replaced and all other blocks in place |
| `ObjectStorage.EepromObjectStorage.MergeDisposedBlocks` | controlbox/src/cbox/EepromObjectStorage.h:541-570 | performs one merge pass and says whether it joined the last two blocks; after every write all objects are at the same place with the same bytes and fewer disposed blocks touch |
| `Blocks.MergesLastIff` | controlbox/src/cbox/EepromObjectStorage.h:541-570 | the last two blocks are joined exactly when the chain ends in an even number of disposed blocks, at least two |
| `ObjectStorage.EepromObjectStorage.DisposeObject` | controlbox/src/cbox/EepromObjectStorage.h:237-253 | disposes of the first object with the id if it has stored bytes, and merges; the first cut is the chain with that block disposed of, every later one has fewer disposed blocks that touch |
| `ObjectStorage.EepromObjectStorage.FreeSpace` | controlbox/src/cbox/EepromObjectStorage.h:262-276 | the sum over the disposed blocks as the code counts it |
| `ObjectStorage.EepromObjectStorage.MoveDisposedBackwards` | controlbox/src/cbox/EepromObjectStorage.h:497-539 | swaps the first disposed block with the object directly behind it through an overlapping copy; a cut after any write spares every object but the moved one |
| `ObjectStorage.EepromObjectStorage.MoveAcrossDisposed` | controlbox/src/cbox/EepromObjectStorage.h:497-539 | the same statements when more disposed blocks lie between: the area then holds exactly the bytes of the misplaced move |
| `ObjectStorage.EepromObjectStorage.SwapBytes` | controlbox/src/cbox/EepromObjectStorage.h:517-536 | the writes of a move on any bytes: the joined length, the copied bytes, the header of the disposed rest, the header of the object |
| `ObjectStorage.EepromObjectStorage.Defrag` | controlbox/src/cbox/EepromObjectStorage.h:292-301 | terminates and acts as the block-level function on every chain that can be defragmented; every cut is harmless to other ids, and in a settled chain leaves one that can be defragmented; where ids are unique, no cut changes what another id reads exactly when every object behind the first disposed block is hollow |
| `ObjectStorage.EepromObjectStorage.WriteWithCrc` | controlbox/src/cbox/EepromObjectStorage.h:89-108 | streams the payload and the CRC over id and payload, spoiled when the handler fails, or refuses when the room is too small |
| `ObjectStorage.EepromObjectStorage.StoreObject` | controlbox/src/cbox/EepromObjectStorage.h:62-153 | chain and answer are those of the block-level store on every path; every cut is harmless to other ids, and every cut but the one in the middle of a relocation leaves a chain that can be defragmented; the cuts are those of the defragmentation, if any, and of the allocation, and then ones that spare all other objects |
| `ObjectStorage.EepromObjectStorage.RetrieveObject` | controlbox/src/cbox/EepromObjectStorage.h:162-172 | gives the stored bytes of the first object with the id, or not found when there are none |
| `ObjectStorage.EepromObjectStorage.RetrieveObjects` | controlbox/src/cbox/EepromObjectStorage.h:179-235 | gives the stored bytes of every object, in the order of the blocks, up to the first for which the handler reports a stream error |
| `StoreSpec.AllocFits` | controlbox/src/cbox/EepromObjectStorage.h:430-479 | an allocated block has the id and at least the room asked for; the area stays tiled and no other object changes |
| `StoreSpec.DisposeAround` | controlbox/src/cbox/EepromObjectStorage.h:140-143 | disposing of the old block keeps the new block of a relocation where it is, so its location stays right |
| `StoreSpec.OldIsInFront` | controlbox/src/cbox/EepromObjectStorage.h:131-143 | after a defragmentation the old block lies in front of the new one |
| `StoreLaws.DisposeLaw` | controlbox/src/cbox/EepromObjectStorage.h:237-253 | disposing changes no other id; an id with one block has nothing stored afterwards, and a block remains only if it was without stored bytes |
| `DisposedRuns.DisposeAdjacent` | controlbox/src/cbox/EepromObjectStorage.h:541-570 | disposal with merging at least halves the number of places where disposed blocks touch, after adding at most two |
| `StoreLaws.InvDefrag` | controlbox/src/cbox/EepromObjectStorage.h:292-301 | an orderly chain can be defragmented, and defragmentation is then complete |
| `DisposedRuns.DefragIff` | controlbox/src/cbox/EepromObjectStorage.h:292-301 | the rounds of merging and moving bring all objects to the front exactly when no run of disposed blocks with an object behind it is too long: four in the first run and the next, doubling with each object between |
| `PowerCuts.MisplacedMoveBreaks` | controlbox/src/cbox/EepromObjectStorage.h:497-539 | the bytes that a move with disposed blocks between leaves are no chain, unless the last bytes of the object look like one |
| `PowerCuts.StoreCutLaw` | controlbox/src/cbox/EepromObjectStorage.h:140-149 | after a cut in a store defragmentation is right, with at most three places where disposed blocks touch, except possibly right behind the type byte of the old block, and also there when no disposed blocks touched before |
| `PowerCuts.DisposeCutLaw` | controlbox/src/cbox/EepromObjectStorage.h:237-253 | after every cut in a disposal defragmentation is right |
| `StoreLaws.AllocLaw` | controlbox/src/cbox/EepromObjectStorage.h:430-479 | allocation keeps sizes, adjacent pairs and the number of blocks of every id in order |
| `StoreLaws.StoreByPath` | controlbox/src/cbox/EepromObjectStorage.h:62-153 | the answer of a store per path: unchanged chain when refused, with an error for id 0, OK when the handler needs nothing stored and its own error otherwise; unchanged or defragmented chain when full; a write error exactly on the lossy path; the handler's result otherwise |
| `StoreLaws.StoreFrame` | controlbox/src/cbox/EepromObjectStorage.h:62-153 | whatever the answer, and however many blocks an id has, the area stays tiled and no other id changes |
| `StoreLaws.StoreResult` | controlbox/src/cbox/EepromObjectStorage.h:62-153 | for an id with at most one block: after a completed store it reads as payload and CRC exactly unless a block without stored bytes lies in front; a write error leaves nothing; otherwise the id is unchanged |
| `StoreLaws.OkMeansStored` | controlbox/src/cbox/EepromObjectStorage.h:77-149 | a caller who is told OK reads back what it has streamed, exactly unless it said that nothing needs to be stored or a hollow block of the id stays in front |
| `StoreLaws.OkIff` | controlbox/src/cbox/EepromObjectStorage.h:62-149 | OK is answered exactly when the id is not 0 and the handler needs nothing stored, or succeeds in both its runs and the store ends in place, in a new block or in one after defragmentation |
| `StoreLaws.RoomToGrow` | controlbox/src/cbox/EepromObjectStorage.h:110-120 | an object in a new block can grow by an eighth, at least four bytes, and is then stored in place; with eight bytes more it is not |
| `StoreLaws.StoreKeepsInv` | controlbox/src/cbox/EepromObjectStorage.h:62-153 | a store keeps unique ids, sizes and short runs exactly unless it gives a second block to an id without stored bytes |
| `StoreLaws.StoreKeepsOrder` | controlbox/src/cbox/EepromObjectStorage.h:62-153 | every store keeps sizes, id zero out and disposed blocks apart, whatever it answers |
| `StoreLaws.StoreGoesOn` | controlbox/src/cbox/EepromObjectStorage.h:62-153 | a store in any chain that can be defragmented, as a power cut may leave it, keeps the area tiled and every object of another id |
| `StoreLaws.FreeSpaceLaw` | controlbox/src/cbox/EepromObjectStorage.h:262-276 | defragmentation leaves the objects and one disposed block whose size is the reported free space, less one header when the chain ended in an object; without disposed blocks it leaves the objects and 0 is reported |
| `StoreLaws.RoomAfterDefrag` | controlbox/src/cbox/EepromObjectStorage.h:131-137 | after defragmentation a request fits exactly when all free bytes are enough for object and header |
| `StoreLaws.CheckedInVain` | controlbox/src/cbox/EepromObjectStorage.h:124-137 | exactly when the check of the free space is passed and allocation fails all the same |
| `StoreRuns.AnyRun` | controlbox/src/cbox/EepromObjectStorage.h:62-153 | over every run of stores and disposals the area stays tiled and in order, and every id that never had a write error reads as the map that the caller keeps from the answers |
| `StoreRuns.RunLaw` | controlbox/src/cbox/EepromObjectStorage.h:62-153 | as long as a damaged id is not stored again, ids stay unique and the map is right for all ids |
| `StoreRuns.RunsFromFormat` | controlbox/src/cbox/EepromObjectStorage.h:481-495 | from a formatted area on, for every run, reading any id without a write error gives what the map says, and disposing of it finds a block exactly when the map has it |
| `StoreRuns.LoaderAccepts` | controlbox/src/cbox/Box.cpp:444-475 | the loader's CRC over id, data and CRC byte is 0 exactly when the handler had succeeded |
| `StoreRuns.PowerCut` | controlbox/src/cbox/EepromObjectStorage.h:518-536 | after a harmless cut, as the contracts of the methods promise for every cut, every id reads as before except the written one, the id 0 of a half-made block and at most one more |
| `AllocationCuts.RevivesIff` | controlbox/src/cbox/EepromObjectStorage.h:448-453 | an object in the place of a disposed block changes what is read exactly for its own id, unless that has a block in front or stores the same bytes behind |
| `AllocationCuts.AllocCutsIff` | controlbox/src/cbox/EepromObjectStorage.h:448-474 | no cut of an allocation changes what another id reads exactly when there is no room, or the stale id is the caller's, or has a block in front, or stores the very bytes behind and the stale size is right |
| `AllocationCuts.StoreCutsIff` | controlbox/src/cbox/EepromObjectStorage.h:118-149 | the same for all cuts of a store that does not defragment: also when the data fits where it is |
| `DefragCuts.MoveCutsIff` | controlbox/src/cbox/EepromObjectStorage.h:517-536 | no cut of a move changes what another id reads exactly when the id of the moved object is the caller's, or has a block in front, or stores the same bytes behind |
| `DefragCuts.RoundLaw` | controlbox/src/cbox/EepromObjectStorage.h:298-300 | what a round of merging and moving risks, together with what is still to come, is what there was to risk before |
| `DefragCuts.StoreCutsAfterDefragIff` | controlbox/src/cbox/EepromObjectStorage.h:123-149 | no cut of a store that defragments changes what another id reads exactly when every moved object is hollow or the own one, and then there is no room or the id in the stale bytes is in use or the own one |
| `CutRuns.BreaksHalve` | controlbox/src/cbox/EepromObjectStorage.h:541-570 | a merge pass halves the places where disposed blocks touch, up to one on either side of a half-made block that is still to be disposed of |
| `CutRuns.StoreGoes` | controlbox/src/cbox/EepromObjectStorage.h:62-153 | a store in any chain with at most three such places leaves one with at most three, keeps the area tiled and all other objects |
| `CutRuns.CalmRun` | controlbox/src/cbox/EepromObjectStorage.h:62-153 | so does every run of stores and disposals, and every id that is not damaged reads as the caller's map says |
| `CutRuns.GoingOn` | controlbox/src/cbox/EepromObjectStorage.h:62-153 | from an orderly chain, through a cut in any operation that leaves a calm chain and over every run that follows: defragmentation is right, the area stays tiled, and every id but the one that was written, 0, at most one more and those with a write error reads as the map of a caller that goes on from before the cut |
| `CutRuns.StoreCutIsCalm` | controlbox/src/cbox/EepromObjectStorage.h:140-149 | every cut of a store is such, except the one behind the type byte of the old block when disposed blocks touched before |
| `StoreExamples.GrowingLosesObject` | controlbox/src/cbox/EepromObjectStorage.h:123-143 | an object that grows when only defragmentation makes room is lost with a write error |
| `StoreExamples.StoringUnderHollowId` | controlbox/src/cbox/EepromObjectStorage.h:85-143 | a run from a formatted area that ends with the answer OK to a store of which nothing can be read |
| `StoreExamples.PowerCutRevivesOldBytes` | controlbox/src/cbox/EepromObjectStorage.h:448-453 | a run from a formatted area after which the first cut of a store under a new id brings the old bytes of another id back, with the right CRC |
| `StoreExamples.PowerCutBlocksDefrag` | controlbox/src/cbox/EepromObjectStorage.h:497-539 | a run from a formatted area and a cut in a store after which defragmentation meets two disposed blocks in front of an object and breaks the chain |
| `RomOrder.FirstWalk` | lib/src/OneWire.cpp:192-239 | the first walk finds the least address of the group it ends in |
| `RomOrder.NextWalk` | lib/src/OneWire.cpp:212-248 | a walk that turns at the last turn of an address finds the next address in order |
| `RomOrder.LastOfFamily` | lib/src/OneWire.cpp:241-248 | an address is the last of its group exactly when it has no turn behind the locked bits |
| `RomOrder.WalkStep` | lib/src/OneWire.cpp:222-238 | one bit continues the walk and remembers a zero taken at a branch |
| `RomOrder.ListIsUnique` | lib/src/OneWire.cpp:192-256 | a group has only one ascending list of its addresses |
| `RomAddress.PlaceValue` | lib/inc/OneWireAddress.h:52-56 | the bit at place i of a byte counts 2 to the power of i |
| `RomAddress.FamilyIsFirstByte` | lib/inc/OneWireAddress.h:42-56 | an address begins with the bits of a family code exactly when its first byte is that code |
| `RomAddress.ValidIsSerial` | lib/src/OneWire.cpp:241-242 | an address is valid exactly when the bit-serial CRC of all its bits, in the order of the bus, is 0 |
| `OneWireBus.OneWireMockDevice.SearchTripletRead` | lib/src/OneWireMockDevice.cpp:158-173 | a device in step with the search pulls the line of its next address bit, a dropped one neither |
| `OneWireBus.OneWireMockDevice.SearchTripletWrite` | lib/src/OneWireMockDevice.cpp:175-186 | a device follows the chosen bit or drops out |
| `OneWireBus.OneWireMockDriver.SearchTriplet` | lib/src/OneWireMockDriver.cpp:22-52 | the status says which bits the addresses on the path have; the direction is forced when they agree; all devices follow it |
| `OneWireSearch.OneWire.Search` | lib/src/OneWire.cpp:192-256 | a search walks from the previous address, its state then describes the new address, and it fails exactly when the enumeration is over or the bus is empty |
| `OneWireSearch.OneWire.TargetSearch` | lib/src/OneWire.cpp:182-190 | starts an enumeration with eight locked bits, which an address begins with exactly when its first byte is the family code |
| `OneWireSearch.OneWire.StreamAddresses` | lib/src/OneWire.cpp:172-256 | the searches after a reset or a targeting list one group in order, each address once, and stop; it is the requested one exactly when some device belongs to it |
| `OneWireSearch.OneWireBusBlock.StreamSearch` | app/brewblox/blox/OneWireBusBlock.cpp:77-83 | the search command lists, in ascending order and once each, all addresses of the bus, or those whose first byte is the given one when there are any |
| `OneWireSearch.FamilyOrNot` | lib/src/OneWire.cpp:213-219 | a first walk ends in the requested family exactly when that family has a member |
| `Ticks.ElapsedAtMost` | lib/inc/TicksTypes.h:24-27 | a wrapping clock makes durations look shorter, never longer, and is exact below 2^32 |
| `ChangeLog.ActuatorDigitalChangeLogged.Update` | lib/src/ActuatorDigitalChangeLogged.cpp:53-62 | a changed state is put in front of the history, shifted in place |
| `ChangeLog.ActuatorDigitalChangeLogged.GetLastStartEndTime` | lib/src/ActuatorDigitalChangeLogged.cpp:64-82 | start and end of the most recent entry with the state |
| `ChangeLog.ActuatorDigitalChangeLogged.ActiveDurations` | lib/src/ActuatorDigitalChangeLogged.cpp:84-133 | both periods are the distances between the starts of the entries that bound them, and both active times are those of the last two active entries counted |
| `ChangeLog.ActuatorDigitalChangeLogged.ResetHistory` | lib/src/ActuatorDigitalChangeLogged.cpp:135-141 | the history is the current state since 0 and padding |
| `ChangeLog.PeriodsAddUp` | lib/src/ActuatorDigitalChangeLogged.cpp:84-133 | current and previous period together reach back to the start of the oldest counted entry, modulo 2^32 |
| `ChangeLog.DurationsFit` | lib/src/ActuatorDigitalChangeLogged.cpp:84-133 | before the clock wraps, periods are true durations and contain their active times |
| `ChangeLog.HistoryIsNewest` | lib/src/ActuatorDigitalChangeLogged.cpp:53-62 | logging a change keeps the history the newest part of all changes |
| `ChangeLog.StateSince` | lib/src/ActuatorDigitalChangeLogged.cpp:64-82 | the present state began at the last change |
| `ChangeLog.LastTimes` | lib/src/ActuatorDigitalChangeLogged.cpp:64-82 | for any state: the last time in it goes from its change to the next one; a state that is not in the history shows as an empty time one tick ahead |
| `ChangeLog.DurationsAreTrue` | lib/src/ActuatorDigitalChangeLogged.cpp:84-133 | for every log that switches on and off, of any length and through wraps of the clock: the four durations as distances of the logged changes |
| `Constraints.ActuatorDigitalConstrained.AddConstraint` | lib/inc/ActuatorDigitalConstrained.h:94-102 | adds one constraint while there are fewer than eight, and leaves the list sorted by order |
| `Constraints.ActuatorDigitalConstrained.AskConstraint` | lib/inc/ActuatorDigitalConstrained.h:206-384 | each kind of constraint answers and changes as its function says |
| `Constraints.ActuatorDigitalConstrained.AskMutex` | lib/inc/ActuatorDigitalConstrained.h:405-447 | a mutex constraint takes, keeps or releases the lock and sets the remaining time |
| `Constraints.ActuatorDigitalConstrained.CheckConstraints` | lib/inc/ActuatorDigitalConstrained.h:116-125 | asks in order until one objects; later ones are untouched |
| `Constraints.ActuatorDigitalConstrained.SetDesiredState` | lib/inc/ActuatorDigitalConstrained.h:127-136 | the state is taken and logged exactly when no constraint objects |
| `Constraints.ActuatorDigitalConstrained.Update` | lib/inc/ActuatorDigitalConstrained.h:154-160 | asks again for the desired state; the next update is at most a second later |
| `ConstraintRuns.CheckCounts` | lib/inc/ActuatorDigitalConstrained.h:405-447 | a lock is taken or given up exactly when a constraint begins or ends to hold it |
| `ConstraintRuns.CheckPassed` | lib/inc/ActuatorDigitalConstrained.h:116-125 | a passed request to go active holds every lock, and the minimum times have passed on the clock |
| `ConstraintRuns.CheckReleases` | lib/inc/ActuatorDigitalConstrained.h:405-424 | with mutexes last, a lock is released only by a passed request to go inactive after the hold time on the clock |
| `ConstraintSafety.ActuatorStep` | lib/inc/ActuatorDigitalConstrained.h:116-136 | one request keeps an actuator's locks, minimum times, rests and faithful history |
| `ConstraintSafety.SafeStep` | lib/inc/ActuatorDigitalConstrained.h:116-136 | one request to any actuator keeps the whole plant safe |
| `ConstraintSafety.RunIsSafe` | lib/inc/ActuatorDigitalConstrained.h:116-160 | every run on a clock that does not run backwards stays safe |
| `ConstraintLaws.ActiveHoldsLocks` | lib/inc/ActuatorDigitalConstrained.h:405-446 | over every run an active actuator holds the lock of every mutex in its list |
| `ConstraintLaws.MutualExclusion` | lib/inc/ActuatorDigitalConstrained.h:405-446 | over every run two actuators that share a mutex are never active together |
| `ConstraintLaws.HoldTimePasses` | lib/inc/ActuatorDigitalConstrained.h:407-429 | in every step of every run that leaves an actuator active, every other actuator with the mutex has been off for the hold time in true time, though the clock wraps |
| `ConstraintLaws.LoggedHoldTimes` | lib/inc/ActuatorDigitalConstrained.h:407-429 | in the logs, a switch-on that is later than a switch-off of another actuator with the mutex is later by the hold time |
| `ConstraintLaws.MinimumTimesPass` | lib/inc/ActuatorDigitalConstrained.h:218-281 | logged on and off times last at least their minimum in true time |
| `ConstraintLaws.HistoryIsTail` | lib/src/ActuatorDigitalChangeLogged.cpp:53-62 | over every run the history is the newest part of the whole log, padded with unknown |
| `ConstraintLaws.PassesWithoutLock` | lib/inc/ActuatorDigitalConstrained.h:434-443 | a taken mutex lets the request pass exactly when its remaining time is the largest clock value |
| `ConstraintLaws.HoldCondition` | lib/inc/ActuatorDigitalConstrained.h:405-446 | two actuators that share a mutex, with their own hold time or the default of the target, exclude each other on all runs exactly when that is not the largest clock value |
| `ConstraintLaws.OrderMatters` | lib/inc/ActuatorDigitalConstrained.h:99-100 | with a delay behind a mutex both actuators can be active: the sort is needed |
| `ConstraintTimes.MinimumTimeLeft` | lib/inc/ActuatorDigitalConstrained.h:218-281 | a minimum time objects exactly when its state would be left too early, and announces exactly what is missing, in true time until the clock has gone round |
| `ConstraintTimes.MinimumTimesLeft` | lib/inc/ActuatorDigitalConstrained.h:116-125 | a list of minimum times lets a request pass exactly when it is too early for none of them; otherwise the wait is what is missing for one |
| `ConstraintTimes.TakesExactly` | lib/inc/ActuatorDigitalConstrained.h:127-160 | in every run an actuator with only minimum times takes and logs a request exactly when they have passed; a refused one changes nothing but the desired state |
| `ConstraintTimes.DelaysWait` | lib/inc/ActuatorDigitalConstrained.h:94-125 | in a sorted list, while a minimum time objects no delay begins to count and no mutex is taken |
| `ConstraintTimes.DelayPasses` | lib/inc/ActuatorDigitalConstrained.h:311-366 | through all requests a delay announces exactly what is missing since the first, less whole rounds of the clock and one tick more from clock value 0; a request for another state passes at once and the delay starts anew |
| `ConstraintTimes.HolderStep` | lib/inc/ActuatorDigitalConstrained.h:407-428 | a request that the holder of a mutex takes leaves in it what is missing of the hold time in true time, and the lock unless nothing is missing |
| `ConstraintTimes.MutexWait` | lib/inc/ActuatorDigitalConstrained.h:407-443 | in every run another actuator is told to wait for one tick more than what is missing of the hold time since the holder's last request, and gets the lock once nothing is |
| `LogicBlock.ActuatorLogicBlock.EvalAt` | app/brewblox/blox/ActuatorLogicBlock.cpp:189-282 | result and position are those of the recursive evaluation of the rest of the text |
| `LogicBlock.ActuatorLogicBlock.Evaluate` | app/brewblox/blox/ActuatorLogicBlock.cpp:166-187 | updates all comparisons and evaluates the expression over what they tell of the objects; the error position, in eight bits, is that of a character that the error is about; an expression of one letter tells what its comparison means |
| `LogicBlock.ActuatorLogicBlock.Update` | app/brewblox/blox/ActuatorLogicBlock.cpp:141-155 | when enabled the target is asked to be active when the expression is true and inactive otherwise; else it is left alone |
| `LogicEval.RestIsSuffix` | app/brewblox/blox/ActuatorLogicBlock.cpp:189-282 | evaluation ends and never moves past the end: what is left is an end part of the text |
| `LogicPhrases.EvalPhrase` | app/brewblox/blox/ActuatorLogicBlock.cpp:189-282 | the text of a phrase, alone or in front of the bracket that closes it, evaluates to its meaning |
| `LogicPhrases.ParsePhrase` | app/brewblox/blox/ActuatorLogicBlock.cpp:189-282 | every text that is read without an error begins with the text of a phrase of that meaning |
| `LogicPhrases.AcceptedNests` | app/brewblox/blox/ActuatorLogicBlock.cpp:268-282 | a text read without an error never has 256 brackets open, although the level has eight bits |
| `LogicLaws.PlainIsEvaluated` | app/brewblox/blox/ActuatorLogicBlock.cpp:189-282 | the text of every tree of values, negations and operators evaluates to its boolean value, nested to the right |
| `LogicLaws.AcceptedIff` | app/brewblox/blox/ActuatorLogicBlock.cpp:189-282 | a value is found exactly for the texts of sound phrases with that value and fewer than 256 open brackets, and the whole text is read |
| `LogicLaws.ValueMeansBalanced` | app/brewblox/blox/ActuatorLogicBlock.cpp:266-282 | a value means that the brackets match |
| `LogicLaws.PlainIff` | app/brewblox/blox/ActuatorLogicBlock.cpp:189-282 | a text is in the intended language exactly when a value is found and no bracket is closed behind an opener and no value negated from behind |
| `LogicPhrases.EvalLead` | app/brewblox/blox/ActuatorLogicBlock.cpp:260-271 | any row of groups without a value in front of a text is skipped |
| `LogicLaws.MalformedGroupIsSkipped` | app/brewblox/blox/ActuatorLogicBlock.cpp:260-271 | the text (a|)b has the value of b |
| `LogicErrors.ErrorIsAbout` | app/brewblox/blox/ActuatorLogicBlock.cpp:189-282 | every error of an evaluation says truly what is wrong with the last character that was read; a missing bracket is found at the end |
| `LogicComparisons.StatesCompared` | app/brewblox/blox/ActuatorLogicBlock.cpp:3-19 | on a block that is found IS and IS_NOT are opposite, IS is true for its state and no other, and the desired state does not matter to a comparison of the state, nor the other way round |
| `LogicComparisons.LimitsCompared` | app/brewblox/blox/ActuatorLogicBlock.cpp:32-62 | an invalid reading is neither at most nor at least a limit; a valid one is one of both, and both exactly at the limit |
| `LogicComparisons.LimitsKept` | app/brewblox/blox/ActuatorLogicBlock.cpp:32-62 | a reading that rises stays at least a limit and one that falls stays at most a limit, whatever the other quantity of the block does |
| `LogicComparisons.NotCompared` | app/brewblox/blox/ActuatorLogicBlock.cpp:3-62 | a missing block and another operator are told exactly then |
| `LogicComparisons.OneLetter` | app/brewblox/blox/ActuatorLogicBlock.cpp:189-215 | an expression of one letter results in what its comparison tells of the objects |
| `LogicComparisons.StaysTrue` | app/brewblox/blox/ActuatorLogicBlock.cpp:166-282 | an expression without negation and exclusive or that is true stays true when no reading moves out of the limit it is compared with |
| `PwmPlan.WindowIsSound` | lib/src/ActuatorPwm.cpp:153-240 | the window of the last periods is not empty and contains its on-times |
| `PwmPlan.ShareOfHigh` | lib/src/ActuatorPwm.cpp:277-286 | from a setting of 25 percent on the target exceeds the correction taken from it |
| `PwmPlan.ShareOfLow` | lib/src/ActuatorPwm.cpp:326-336 | up to a setting of 75 percent the low target exceeds the correction taken from it |
| `PwmPlan.InStepFits` | lib/src/ActuatorPwm.cpp:17-34 | a duty time that has been computed from the setting and a period of at least 4 ms always fits |
| `PwmLaws.FittingCorrects` | lib/src/ActuatorPwm.cpp:277-340 | with a duty time within the period that fits the setting, no history makes a correction exceed its target |
| `PwmLaws.HighSettingIsSafe` | lib/src/ActuatorPwm.cpp:277-286 | for duty times above half of the period no history makes the subtraction wrap exactly when the setting is at least 25 percent |
| `PwmLaws.LowSettingIsSafe` | lib/src/ActuatorPwm.cpp:326-340 | for other duty times exactly when it is at most 75 percent |
| `PwmLaws.LongOnFails` | lib/src/ActuatorPwm.cpp:277-286 | for every single period and setting below 25 percent: how long an on-time makes the subtraction wrap |
| `PwmLaws.LongOffFails` | lib/src/ActuatorPwm.cpp:326-340 | for every single period and setting above 75 percent: how long an off time does |
| `PwmLaws.ShortHistoryCorrects` | lib/src/ActuatorPwm.cpp:277-340 | for every single period and setting: up to which length of the current period no history makes it wrap |
| `PwmLaws.LongerPeriodFails` | lib/src/ActuatorPwm.cpp:68-81 | a longer period at 100 percent meets the condition on the off time and makes the correction wrap |
| `PwmLaws.LongerPeriodWaits` | lib/src/ActuatorPwm.cpp:326-340 | with the wrapped target the actuator waits another second where the true one lets it go on at once |
| `PwmLaws.WaitIsBounded` | lib/src/ActuatorPwm.cpp:251-345 | no toggle before three quarters of the normal time, none later than half beyond the longest normal or previous time |
| `PwmLaws.SteadyOffToggles` | lib/src/ActuatorPwm.cpp:295-345 | in a steady rhythm the actuator goes on exactly after its off time |
| `PwmLaws.SteadyOnToggles` | lib/src/ActuatorPwm.cpp:244-294 | in a steady rhythm the actuator goes off after its duty time, above 50 percent early by rounding, with the exact condition |
| `PwmLaws.EarlyRunInRange` | lib/src/ActuatorPwm.cpp:141-147 | for the first six days of a run all histories are in the range where nothing wraps |
| `PwmLaws.OffTimeFits` | lib/src/ActuatorPwm.cpp:68-81 | a new period keeps the off time from wrapping exactly when it is not below the duty time |
| `Pwm.PercentageInRange` | lib/src/ActuatorPwm.cpp:360-366 | the achieved duty lies between 0 and 100 percent |
| `Pwm.PercentageIsTrue` | lib/src/ActuatorPwm.cpp:360-366 | it is the true percentage exactly while the counted on-time is below 42949673 ms |
| `Pwm.ActionIsShort` | lib/src/ActuatorPwm.cpp:360-364 | window and wait together do not wrap while limits are below half the clock range |
| `Pwm.ActuatorPwm.SetSetting` | lib/src/ActuatorPwm.cpp:17-34 | the setting is limited to 0 and 100 percent and the duty time fits it |
| `Pwm.ActuatorPwm.LimitWindow` | lib/src/ActuatorPwm.cpp:153-238 | the counted parts of the last two periods, without unsigned wrap |
| `Pwm.ActuatorPwm.Adapt` | lib/src/ActuatorPwm.cpp:260-294 | the remaining time of the adapting part; only the correction of the target may wrap |
| `Pwm.ActuatorPwm.SlowPwmUpdate` | lib/src/ActuatorPwm.cpp:138-388 | for every duty time within the period, in step with the setting or not: actuator, mutexes, achieved value and next update are those of the response that the laws of `PwmEffects` are about; achieved duty in range |
| `PwmEffects.OffTimeEnds` | lib/src/ActuatorPwm.cpp:295-358 | in a steady rhythm an actuator that nothing blocks is active after the update once the off time is over, and is left alone before |
| `PwmEffects.OnTimeEnds` | lib/src/ActuatorPwm.cpp:244-358 | it is inactive after the update once the on-time is over, and is left alone before |
| `PwmEffects.ExtremesHold` | lib/src/ActuatorPwm.cpp:244-358 | at 0 percent every update asks for the inactive state, at 100 percent for the active state, and an actuator that nothing blocks takes it |
| `PwmEffects.DisabledLeaves` | lib/src/ActuatorPwm.cpp:348-358 | when disabled or without a valid setting, an update between 0 and 100 percent leaves the actuator alone |
| `PwmEffects.SteadyExists` | lib/src/ActuatorPwm.cpp:138-388 | every such setting and period has a steady rhythm: that of an actuator that was switched by hand for two periods |
| `PwmEffects.BeatKeeps` | lib/src/ActuatorPwm.cpp:138-388 | up to 50 percent, an update at the time that the one before asked for switches exactly at the end of an on- or off time, never later, and keeps the rhythm |
| `PwmEffects.IdealWave` | lib/src/ActuatorPwm.cpp:138-388 | over every run of such updates, through wraps of the clock: after each update the actuator is active exactly in the first part of the period, for the duty time |
| `PwmEffects.AchievesSetting` | lib/src/ActuatorPwm.cpp:360-383 | in every such run the achieved value is the setting from the end of the first on-time on in which it was updated |
| `PwmWindows.LowWindowIsTrue` | lib/src/ActuatorPwm.cpp:155-166 | at 0 percent, when off: exactly when the window shows the on-time of the last two PWM periods |
| `PwmWindows.HighWindowIsTrue` | lib/src/ActuatorPwm.cpp:167-177 | at 100 percent, when on: exactly when it does |
| `PwmWindows.LowWindowMisses` | lib/src/ActuatorPwm.cpp:155-166 | six of the last eight seconds on of which the window of two periods of 4 s shows none |
| `PwmWindows.ExtremesAchieved` | lib/src/ActuatorPwm.cpp:360-379 | after two PWM periods in the state of 0 or 100 percent just that is achieved |
| `PwmWindows.AchievedMoves` | lib/src/ActuatorPwm.cpp:370-383 | the achieved value moves only towards the percentage and in the direction of the state; in an unknown state it is the setting, and invalid |
| `PwmWindows.CurrentCounted` | lib/src/ActuatorPwm.cpp:201-224 | of the current period, the part that adapts counts as it is, and of the other part one PWM period at most when the on-off period is longer than two |
| `PwmWindows.PreviousCounted` | lib/src/ActuatorPwm.cpp:179-239 | the previous period gets what the current one has lost; compressed to three PWM periods it keeps its proportion; lengthened to one it comes as close to the duty time as it can |
| `Crc8.SmallTableIsSerial` | lib/src/OneWireCrc.cpp:10-14 | the two half-byte tables compute the bit-serial CRC of every byte |
| `Crc8.TableIsSerial` | controlbox/src/cbox/DataStream.h:504-521 | the 256-entry table computes the same |
| `Crc8.OneWireCrc8` | lib/src/OneWireCrc.cpp:18-31 | the loop computes the bit-serial CRC of the bytes |
| `Crc8.FoldIsSerial` | controlbox/src/cbox/DataStream.h:536-541 | folding bytes through the stream gives the bit-serial CRC |
| `Crc8.AppendedCrc` | controlbox/src/cbox/DataStream.h:543-546 | folding in one more byte gives 0 exactly for the right CRC byte |
| `Crc8.FoldInjective` | controlbox/src/cbox/DataStream.h:536-541 | different registers stay different under the same bytes |
| `Crc8.OneByteError` | controlbox/src/cbox/DataStream.h:536-541 | sequences that differ in one byte have different CRCs |
| `Crc16.OneWireCrc16Update` | lib/src/OneWireCrc.cpp:33-52 | the parity form makes eight steps of the bit-serial register with polynomial 0xA001 |
| `Crc16.OneWireCrc16` | lib/src/OneWireCrc.cpp:54-64 | the loop computes the bit-serial CRC of the bytes |
| `Iir.Balanced` | lib/src/IirFilter.cpp:156-229 | in all three filters the coefficients balance exactly |
| `Iir.OffsetPasses` | lib/src/IirFilter.cpp:53-84 | an offset of input and history is an offset of the new history, with the same step decision, for all histories |
| `Iir.AtRest` | lib/src/IirFilter.cpp:53-100 | a filter at rest stays at rest |
| `Iir.PartialSumsFit` | lib/src/IirFilter.cpp:66-70 | no partial sum of a small history leaves 64 bits |
| `IirSteps.SteepestRise` | lib/src/IirFilter.cpp:156-229 | from rest, on a unit input, no output up to the steepest rises by more than the largest derivative of the filter; the first filter reaches it, the others fall short by at most six |
| `IirSteps.JumpIsNoticed` | lib/src/IirFilter.cpp:73-83 | from rest at any value, with a threshold of 1: a jump by 1 is noticed by the first filter with the eighth input, and not by the others up to their steepest rise |
| `IirSteps.FirstOutput` | lib/src/IirFilter.cpp:53-84 | the first output after rest is the first coefficient times the input, and is noticed as a step exactly when that, up or down, reaches the threshold |
| `IirFilters.ShiftIsPlain` | lib/src/IirFilter.cpp:129-137 | the shift that keeps the sign aside is the plain 64-bit shift exactly for values that are not negative and for those whose plain shift is negative too |
| `IirFilters.ShiftIsScaled` | lib/src/IirFilter.cpp:129-137 | as used for inputs it is a multiplication by a power of two as long as the product fits in 64 bits |
| `IirFilters.IirFilter.Add` | lib/src/IirFilter.cpp:53-84 | history and step flag are those of the recursion, computed in 64 bits |
| `FilterChains.FeedReaches` | lib/src/FilterChain.cpp:75-86 | an input reaches exactly the stages whose period it completes |
| `FilterChains.Decimation` | lib/src/FilterChain.cpp:69-91 | after n inputs every stage has had n divided by the product of the intervals before it, rounded down, although the counter restarts |
| `FilterChains.ChainOffset` | lib/src/FilterChain.cpp:69-91 | an offset of the input is an offset of every stage and nothing else |
| `FilterChains.SteadyState` | lib/src/FilterChain.cpp:93-154 | after settling, any number of equal inputs leaves every stage at that value and every derivative 0 |
| `FilterChains.InterpolatedBetween` | lib/src/FilterChain.cpp:147-153 | a smoothed value lies between the two values it smoothes |
| `ChainReadings.InterpolatedMoves` | lib/src/FilterChain.cpp:147-153 | a smoothed value starts at the previous value, ends at the latest one and moves only towards it |
| `ChainReadings.InterpolatedIsOdd` | lib/src/FilterChain.cpp:147-153 | rounding is towards zero: values of opposite sign are smoothed alike |
| `ChainReadings.ReadingGoesOn` | lib/src/FilterChain.cpp:138-220 | when a stage gets an input, its smoothed reading goes on from what it read before, unless a step is noticed; between inputs it only moves towards the latest value, which stays; the same for the derivative |
| `ChainReadings.FirstAnswer` | lib/src/FilterChain.cpp:69-220 | a settled chain answers a first other input with the first coefficient of its first filter, also as its derivative, or with the input itself when that counts as a step |
| `FilterChains.SettledCanFeed` | lib/src/FilterChain.cpp:69-91 | a settled chain of 24-bit values stays within 64 bits |
| `FilterChains.IntervalsGiven` | lib/src/FilterChain.cpp:39-40 | an interval that is missing or 0 is 4 for the third filter and 2 for the others |
| `FilterChains.FilterChain.constructor` | lib/src/FilterChain.cpp:24-46 | intervals default to those of the filters; the chain starts settled on 0 and on schedule |
| `FilterChains.FilterChain.Add` | lib/src/FilterChain.cpp:69-91 | the chain object acts as the function on stages |
| `FilterChains.FilterChain.Read` | lib/src/FilterChain.cpp:138-154 | the latest or the interpolated value of the selected stage |
| `FilterChains.FilterChain.ReadDerivative` | lib/src/FilterChain.cpp:203-220 | the latest or the interpolated derivative of the selected stage |
| `FilterChains.FilterChain.SampleInterval` | lib/src/FilterChain.cpp:167-177 | the product of the intervals |
| `FilterChains.FilterChain.Reset` | lib/src/FilterChain.cpp:93-102 | every stage settles on the value |

## Left out

- EEPROM: `continuousFreeSpace`, disposal without merging, ids as seen by `Box`, and starting from an image that another program wrote.
- EEPROM: the region streams that wrap reader and writer are modelled as the length that is left; `DataIn::push` is a byte loop in `CopyForward`.
- EEPROM: handlers stream the same bytes in both runs; payloads whose padded size does not fit 16 bits are excluded by `InRange`.
- StoreRuns.RunLaw: says what damaged ids read as only while they are not stored again and handlers do not themselves report the two storage errors; `AnyRun` covers all runs for the other ids, and `StoreResult` a single store under a damaged id with one block.
- StoreRuns.PowerCut: takes the harmlessness of the cut, which the methods promise for each of their cuts, as its hypothesis; when there is no such id is said by `StoreCutsIff` and `StoreCutsAfterDefragIff`; what is read is stated for the decoded chain, and torn 16-bit fields are not modelled.
- DefragCuts.StoreCutsAfterDefragIff: for chains with unique ids; its second condition is about the chain that the defragmentation leaves.
- AllocationCuts.StoreCutsIff: speaks of what is read by id; a loader that lists all blocks also meets a stale block behind another one of its id.
- CutRuns.GoingOn: covers one cut and every run behind it; a second cut may leave more places where disposed blocks touch and needs the condition of `DefragIff` again.
- 1-Wire: bus commands of the block other than the search, device commands other than the ROM search, bit-flip injection, disconnected devices, the DS248x driver and the rest of the master's commands. Addresses are required to have valid CRCs, so the retry of a damaged search is not modelled.
- Constraints: the remaining time that each constraint keeps for display, `removeAllConstraints`, and constraints that are added or reconfigured during a run. The lookup of a mutex may fail at any step, but an id always names the same mutex.
- ConstraintLaws.HoldCondition: the converse is shown for two actuators with one mutex each, with their own or the default hold time; for other plants only the sufficient bound is proved.
- ConstraintLaws.MinimumTimesPass: stated for an output that follows every request; an actuator that changes by itself or shows unknown while disconnected is not modelled.
- Pwm.ActuatorPwm.SlowPwmUpdate: periods and counted durations are below 2^29 ms and constraint limits below 2^31 ms; duty times beyond the period are excluded, where the off time wraps; the product by 100 is kept in 32 bits and may wrap as in the code. `Adapt` and `DropExcess` each model two branches of the source that differ only in the state they look at.
- PwmLaws.ShortHistoryCorrects: for a single period, the length up to which nothing wraps and the length from which something does differ by a small factor; over all periods the bounds are exact.
- PWM: fast timer mode, `settingValid` and `enabled` as operations, and the platform limits on the period.
- Logic: the protobuf messages, and values as fixed-point numbers (comparisons are on their raw integers).
- Filters: `expandStages`, stages that are not initialised, `setParamsIdx`, thresholds below 0, frequency response and stability. A chain is fed only values for which 64 bits are enough.
- PwmEffects.IdealWave: for settings up to 50 percent that are a whole number of milliseconds per period, actuators without constraints, and from a steady rhythm on; above 50 percent rounding ends an on-time early, and the rhythm that follows is only stated one update at a time (`OnTimeEnds`, `WaitIsBounded`). How a run converges to a steady rhythm is not modelled.
- IirSteps.JumpIsNoticed: for a jump by 1 and a threshold of 1, up to the steepest rise; larger jumps are rounded differently.
- ConstraintTimes.MutexWait: about a holder whose request passes; a holder that a delay keeps on leaves the wait as it was.
- IirFilters.IirFilter.Add: requires a history of at most 41 bits; only a settled chain is proved to stay in it.
- Left out as glue or hardware: `Box` commands, connections, factories, balancing, PID, setpoint profiles, sensors, pins, display and network.
