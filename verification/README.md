# Verified models of the instro instrument library

This project models the parts of instro that keep real state or do real arithmetic, and proves
what they promise. Each module stands for one component:

- **OPC UA subscription pump** (`SubscriptionLoop`, `SubscriptionFate`,
  `SubscriptionOrder`). The loop that merges notifications with
  background reads of quiet nodes: ticks, failed reads, notification chunks, a dropped client and
  the end of the stream. The class `SubscriptionPump` updates its maps in place and is tied to a
  step machine; the theorems are about every run of that machine.
- **OPC UA browse** (`Browse`, `BrowseOrder`, `BrowseLimits`) and **node ids** (`NodeId`, with `Text` and `Decimal`). The
  depth-first walk of an arbitrary, possibly cyclic reference graph with one shared set of seen
  ids, and the printed form of a node id with its parser.
- **Simulated power supply** (`PsuCircuit`, `PsuChannel`, `PsuMachine`, `PsuArguments`,
  `PsuReadings`, `PsuTrips`, `Psu`). The circuit physics over the reals, protection and latches of
  one channel, the machine driven by received lines and operator edits, what arguments mean and
  what queries answer, and the objects that the server updates in place.
- **SCPI headers** (`Scpi`, `ScpiCommands`, `ScpiClient`, `ScpiLines`). Expanding header patterns,
  the command table, normalizing and dispatching a received line, and the lines that the client
  sends.
- **Modbus** (`ModbusCodec`, `ModbusRegister`, `ModbusConfig`, `ModbusAccess`, `ModbusLayout`,
  `ModbusWrites`, `ModbusDevice`, with `Rounding`).
  Two's complement and byte, word and long swaps, with the place that each byte takes; scaling and
  range checks at load time and at run time; the validators across registers; single reads, span reads of whole groups, writes
  and the polling plan.
- **Channel buffers** (`RingBuffer`, `ChannelBuffer`, `ChannelPublisher`) and **publisher wrappers** (`Publishers`).
  The modular-index ring and the bounded deque against "the newest `maxlen` values of
  everything ever extended", blocking reads against a history of publishes and closes, and every
  interleaving of producers, worker and closer.
- **I2C** (`I2c`, `I2cInterface`, with `Bits` and `Bytes`). Packing and extracting with sign
  extension over Python's unbounded integers, and read-modify-write of register fields.

Classes and loops follow the program; each is specified by functions, and the main theorems are
lemmas about those functions.

## What was found

Some statements that the documentation or the shape of the code suggests do not hold of the
code. In each case the code is modelled as it is, and the exact condition is proved, both ways
unless said otherwise:

- A browse with a finite `max_depth` can miss a node that lies within the limit, because a node
  first reached at the limit is never expanded again (`LimitedBrowseIsIncomplete`). A limit makes
  no difference exactly when the unlimited tree is no higher (`LimitIsNoLimitIff`), which a limit
  of at least the number of nodes always ensures (`LargeLimitIsNoLimit`), and everything
  within the limit is listed exactly when the Objects listed at the limit hide nothing
  (`LimitedBrowseIsCompleteIff`). The conditions on the graph alone are sufficient ones
  (`LimitedBrowseIsComplete`, `LevelledGraphsAreComplete`): which chain a walk takes first also
  depends on the order of the references.
- `ChannelBufferPublisher.close` clears the sample counts but later publishes are not refused, so
  a reader that is still waiting can be handed data after the close, on both kinds of read; it
  happens exactly when enough samples follow the close, and those are what it gets
  (`DataAfterCloseIff`, `BufferedDataAfterCloseIff`). A read that starts after the close never
  gets data (`NoDataWhenStartedClosed`).
- A read of buffered samples whose time is used up before it starts to wait for samples, as with
  `timeout=0`, is handed fewer samples than it asked for instead of an error, exactly when the
  buffer holds fewer (`BufferedReadReturnsNewest`, `ExpiredReadCanBeShort`).
- The subscription pump does not always keep the samples of a node in the order of their
  timestamps: a polled sample that has been flushed cannot be held back for a late notification.
  On a server that is otherwise well behaved that is the only way the order breaks
  (`OrderBreaksIff`, `OrderCanBreak`).
- Closing a `BasicBufferedPublisher` twice delivers its last partial batch twice, the second time
  to an inner publisher that is already closed (`CloseDeliversAll`), and the keyword arguments of a publish are dropped (`BufferConserves`).
- `QueuedPublisher` with `wait_for_queue` can lose an item whose `publish` call overlaps the
  close; only puts completed before the stop event are safe (`LatePutCanBeLost`,
  `WaitingCloseDeliversEarlierPuts`). What is lost are exactly the puts after the worker's last
  check (`LostPutsAreTheQueue`). A publish that waits for room in a full queue when the worker
  leaves waits for ever (`FullQueueBlocksForever`).
- A `bool` holding register may carry a scale; a written value then reads back as itself exactly
  when it scales to a raw zero or one (`ScaledBool`, used in `WriteThenRead`).
- An I2C format whose field sticks out of the transfer silently loses bits
  (`RoundTripsIffFieldFits`), and a field write fails exactly when the value has a bit that would
  land beyond the register (`WriteFieldSucceedsIff`).
- An I2C format that is signed but has no scaling reads negative values that it does not accept
  for writing (`PhysicalRoundTripIff`).
- Overvoltage protection of the simulated supply can only trip on a total resistance of zero or
  less, and overcurrent protection only on back-fed current; for every load the exact conditions
  are `OvpTripsIff` and `OcpTripsIff`.
- The simulated supply refuses arguments to a query, but looks for the question mark at the very
  end of the header only: `VOLT?1 5` has the channel number after it and is answered
  (`QueryTakesArgumentsIff`, `QuestionMarkBeforeTheNumber`).
- Parsing a node id accepts `+` signs and leading zeros that printing does not reproduce
  (`DisplayOfFromStr`).

## Model

| member | source | states |
|---|---|---|
| SubscriptionLoop.SubscriptionPump.constructor | packages/instro-opcua/src/client.rs:479-488 | A new pump has every node quiet, nothing buffered and nothing emitted. |
| SubscriptionLoop.SubscriptionPump.DrainPolled | packages/instro-opcua/src/client.rs:509-514 | Emits each buffered sample once, in an order the hash map chooses, and leaves the buffer empty. |
| SubscriptionLoop.SubscriptionPump.BufferReads | packages/instro-opcua/src/client.rs:534-537 | Files each read sample under its node, the last one of a node winning. |
| SubscriptionLoop.SubscriptionPump.OnTick | packages/instro-opcua/src/client.rs:503-544 | One tick is one step of the machine: flush, read the quiet nodes, buffer, reset the quiet set; a failed read stops before the reset. |
| SubscriptionLoop.SubscriptionPump.OnNotification | packages/instro-opcua/src/client.rs:549-560 | Emits an older buffered sample before the notification, drops one that is not older, and marks the node active. |
| SubscriptionLoop.SubscriptionPump.OnChunk | packages/instro-opcua/src/client.rs:546-564 | A chunk has the effect of its notifications one after the other. |
| SubscriptionLoop.SubscriptionPump.OnExit | packages/instro-opcua/src/client.rs:576-583 | The exit flushes the buffer. |
| SubscriptionLoop.SubscriptionPump.Run | packages/instro-opcua/src/client.rs:492-583 | The loop handles its inputs in order as a possible run of the machine, and stops exactly at the first input that is a dropped client or the end of the stream. |
| SubscriptionLoop.StopsExactlyAtExit | packages/instro-opcua/src/client.rs:492-583 | A run has stopped exactly when its last event is a dropped client or the end of the stream, and no earlier event is one, so nothing is emitted after an exit. |
| SubscriptionLoop.RunKeepsInvariant | packages/instro-opcua/src/client.rs:487-583 | At every point of every run the buffered samples were read by the latest tick, and none is buffered after the exit. |
| SubscriptionLoop.NotificationsKeepOrder | packages/instro-opcua/src/client.rs:546-564 | Over every run each notification is emitted exactly once, in order of arrival. |
| SubscriptionLoop.ChunkingIsInvisible | packages/instro-opcua/src/client.rs:490-564 | Runs that differ only in how notifications are cut into chunks end in the same state with the same emissions. |
| SubscriptionLoop.QuietMeansSilent | packages/instro-opcua/src/client.rs:484-550 | A node is quiet exactly when it has not notified since the last tick that reset the quiet set; a failed read does not reset it. |
| SubscriptionLoop.BatchAsksForSilentNodes | packages/instro-opcua/src/client.rs:516-532 | A tick asks for exactly the nodes silent since the last reset, and issues no read when there are none. |
| SubscriptionLoop.BufferedNodesAreQuiet | packages/instro-opcua/src/client.rs:484-573 | When reads answer what was asked, buffered nodes are quiet nodes and quiet nodes are nodes of the pump, over every run. |
| SubscriptionLoop.PolledSamplesAreConserved | packages/instro-opcua/src/client.rs:509-583 | Over every run each accepted polled sample is emitted once, dropped once or still buffered, never two of these; after the exit none is buffered. |
| SubscriptionLoop.WindowLaw | packages/instro-opcua/src/client.rs:549-560 | Between two ticks only a node's first notification can meet its polled sample; other samples stay buffered. |
| SubscriptionFate.ReadAtIff | packages/instro-opcua/src/client.rs:516-543 | What a tick buffers, told from the events alone: the last sample of each node in a successful read, when some node has been silent since the last reset. |
| SubscriptionFate.DroppedIff | packages/instro-opcua/src/client.rs:484-583 | Over every run a polled sample has been dropped exactly when some tick read it and the first notification of its node before the next tick, which is the cause, is not newer. |
| SubscriptionFate.EmittedIff | packages/instro-opcua/src/client.rs:484-583 | Over every run a polled sample has been emitted exactly when some tick read it and the first notification of its node before the next tick is newer, or there is none and the next tick or the exit has come. |
| SubscriptionFate.FateOfPolledSample | packages/instro-opcua/src/client.rs:484-583 | From the tick that reads it, a sample is emitted, dropped or still buffered according to its own window alone, whatever happens later. |
| SubscriptionOrder.OrderBreaksIff | packages/instro-opcua/src/client.rs:479-583 | Over every run on a server whose notifications carry increasing timestamps and whose reads are newer than what came before, the samples of each node are emitted in the order of their timestamps, except exactly when a polled sample was flushed and its node later notified something that is not newer. |
| SubscriptionOrder.OrderCanBreak | packages/instro-opcua/src/client.rs:509-560 | A run on such a server in which the order breaks. |
| Browse.SeenSet.Insert | packages/instro-opcua/src/browse.rs:131-133 | Adds an id and tells whether it was new. |
| Browse.BrowseRecursive | packages/instro-opcua/src/browse.rs:113-153 | The recursion over the shared set returns the tree, the error and the final set of the walk, and terminates on cyclic graphs. |
| Browse.BrowseFromRoot | packages/instro-opcua/src/browse.rs:49-57 | A browse is the walk from depth zero with the root already seen. |
| Browse.BrowseIsSound | packages/instro-opcua/src/browse.rs:37-153 | With or without a limit: each id at most once, never the root, only reachable nodes, each child a reference of its parent, only Objects with children, depth within the limit. |
| Browse.BrowseIsComplete | packages/instro-opcua/src/browse.rs:112-153 | Without a limit, and with one class per node, exactly the reachable nodes other than the root are listed. |
| Browse.BrowseFailsIff | packages/instro-opcua/src/browse.rs:127-144 | Without a limit, a browse fails exactly when browsing the root or some reachable Object fails. |
| BrowseOrder.BrowseKeepsOrder | packages/instro-opcua/src/browse.rs:113-153 | At every level, with or without a limit, nodes are listed in the order of the references that lead to them. |
| BrowseOrder.BrowseReportsItsError | packages/instro-opcua/src/browse.rs:113-153 | A browse that fails reports the error with which browsing the root or some reachable Object failed. |
| BrowseLimits.LimitIsNoLimitIff | packages/instro-opcua/src/browse.rs:112-153 | A limit gives the same result as none exactly when the tree that the unlimited browse returns is no higher than the limit. |
| Browse.LimitedBrowseIsIncomplete | packages/instro-opcua/src/browse.rs:121-133 | A server on which a browse of depth two misses a node two references from the root. |
| BrowseLimits.LimitedBrowseIsCompleteIff | packages/instro-opcua/src/browse.rs:121-146 | A browse with a limit lists every node within the limit exactly when the references of each Object listed at the limit that has a shorter chain are listed as well. |
| BrowseLimits.LimitedBrowseIsComplete | packages/instro-opcua/src/browse.rs:112-153 | If no Object has both a chain without repetition as long as the limit and a shorter chain, exactly the nodes within the limit are listed. |
| BrowseLimits.LevelledGraphsAreComplete | packages/instro-opcua/src/browse.rs:112-153 | If all chains to an Object have one length, a browse with any limit lists exactly the nodes within it. |
| Browse.ShadowedObjectIsNotExpanded | packages/instro-opcua/src/browse.rs:131-146 | A server that reports one node with two classes, on which an unlimited browse misses a reachable node. |
| NodeId.FromStrOfDisplay | packages/instro-opcua/src/types.rs:473-511 | Parsing the printed form gives back the id, for all namespaces, numbers and texts, also with `;` or `=` inside. |
| NodeId.DisplayIsInjective | packages/instro-opcua/src/types.rs:459-480 | No two ids print alike, so the text can be a map key. |
| NodeId.ReadIff | packages/instro-opcua/src/types.rs:482-511 | A text is read as an identifier exactly when it is `ns=`, a number, `;`, and `i=` with a number or `s=` with any text, a number being digits with or without a plus sign; every other text is refused. |
| NodeId.DisplayOfFromStr | packages/instro-opcua/src/types.rs:473-511 | An accepted text prints back as itself exactly when it is canonical, without signs and leading zeros. |
| NodeId.PrintedForms | packages/instro-opcua/src/types.rs:459-480 | The notation itself: `ns=2;s=` and any text, `ns=0;i=84`. |
| Decimal.DigitOfValue | packages/instro-opcua/src/types.rs:473-511 | A parsed number has the digits of its text, the first one weighing most. |
| PsuCircuit.DrivenCircuitObeysOhm | instro/psu/scpi_sim_server.py:539-575 | For a finite load, load and lead voltages follow Ohm's law and the current never exceeds the limit. |
| PsuCircuit.SensedVoltageAtMostSetpoint | instro/psu/scpi_sim_server.py:546-575 | With positive total resistance the sensed voltage is at most the setpoint, equal exactly in CV mode, which holds exactly when the demand is within the limit. |
| PsuCircuit.OpenCircuitIsConstantVoltage | instro/psu/scpi_sim_server.py:550-563 | An open circuit is driven at the setpoint with no current. |
| PsuCircuit.NegativeResistance | instro/psu/scpi_sim_server.py:539-575 | With negative total resistance the setpoint is held exactly as long as the load at the current limit stays at or below it; otherwise the limit flows. |
| PsuCircuit.NoResistance | instro/psu/scpi_sim_server.py:539-575 | Without resistance the sensed voltage is the EMF, and the current is the limit unless the EMF equals the setpoint. |
| PsuCircuit.BackFeedIff | instro/psu/scpi_sim_server.py:546-575 | The current exceeds a protection level in magnitude exactly when the back EMF exceeds the setpoint by more than that level across the resistance. |
| PsuChannel.SettleKeepsInvariants | instro/psu/scpi_sim_server.py:507-537 | An update keeps settings below protection levels below limits, and latch and trip flags consistent. |
| PsuChannel.SettleSettles | instro/psu/scpi_sim_server.py:507-537 | A second update changes nothing and reports nothing. |
| PsuChannel.ResetIsSettled | instro/psu/scpi_sim_server.py:256-271 | A reset channel satisfies every invariant and is settled. |
| PsuChannel.SettledMeansSafe | instro/psu/scpi_sim_server.py:507-537 | A settled channel that is off reads zero in mode OFF; one that is on violates no enabled protection. |
| PsuChannel.OvpTripsIff | instro/psu/scpi_sim_server.py:507-575 | For every load: overvoltage protection trips exactly when it and the output are on and the total resistance is zero or less and lifts the load above the level at the current limit; so only in CC mode. |
| PsuChannel.OcpTripsIff | instro/psu/scpi_sim_server.py:507-575 | For every load: overcurrent protection trips exactly when it and the output are on and the back EMF feeds more than the level back, for either sign of the resistance; so only on negative current, never on an open circuit or without resistance, never together with overvoltage. |
| PsuChannel.BothProtectionsCanTrip | instro/psu/scpi_sim_server.py:517-537 | Concrete loads on which each protection trips. |
| PsuMachine.RunKeepsGood | instro/psu/scpi_sim_server.py:256-537 | After any lines and any operator edits in any order, every channel is within limits, consistently latched and settled. |
| PsuMachine.ReachableSupplyIsSafe | instro/psu/scpi_sim_server.py:444-537 | In every reachable state updates, refreshes and measurements change nothing, and every channel is safe. |
| PsuMachine.MeasuredVoltageIsBounded | instro/psu/scpi_sim_server.py:444-450 | In every reachable state a measured voltage is the sensed one: zero when off, at most the setpoint when driving positive resistance. |
| PsuReadings.MeasurementsObeyTheCircuit | instro/psu/scpi_sim_server.py:444-575 | At every point of every run the two measurements of a channel satisfy its circuit: nothing when off; when on, the setpoint or the current limit, with the load and the leads obeying Ohm's law. |
| PsuReadings.TripQueryTellsOfTrips | instro/psu/scpi_sim_server.py:393-425 | At every point of every run the trip query answers true exactly when this action trips the channel, or it answered true before and the action does not clear it. |
| PsuReadings.RunKeepsIdsDistinct | instro/psu/scpi_sim_server.py:1491-1501 | In every run no two channels have the same number. |
| PsuReadings.AddAndRemove | instro/psu/scpi_sim_server.py:1491-1501 | A channel that is added comes last with a number above all others; a removal takes away exactly the channels with the number. |
| PsuMachine.UpdateDisturbsNothing | instro/psu/scpi_sim_server.py:503-537 | In a good state an update is the identity. |
| PsuMachine.ExecKeepsGood | instro/psu/scpi_sim_server.py:247-455 | Every command keeps every channel good. |
| PsuMachine.EditKeepsGood | instro/psu/scpi_sim_server.py:1491-1568 | Every operator edit keeps every channel good. |
| PsuMachine.OtherChannelsAreUntouched | instro/psu/scpi_sim_server.py:247-455 | A command other than a reset changes no channel but the one it names. |
| PsuMachine.SettersAreAtomic | instro/psu/scpi_sim_server.py:279-442 | A setter reports one error and changes no channel, or is carried out and reports nothing but trips. |
| PsuMachine.SetThenQuery | instro/psu/scpi_sim_server.py:279-442 | After any accepted setter the matching query answers what the argument said: on for `1` and `ON` in any case, off for `0` and `OFF`, the sense mode for `REM` and `LOC`, the bounds of the channel for the words for maximum and minimum, otherwise the number; an output switched on reads as on unless it trips. |
| PsuArguments.ArgumentLaw | instro/psu/scpi_sim_server.py:465-501 | Which words and numbers each setter accepts, and which error each other argument is refused with: not a number, out of range, beyond the protection level, or an illegal word. |
| PsuArguments.SetterLaw | instro/psu/scpi_sim_server.py:279-501 | What a setter does with a missing channel, no argument, a refused and an accepted argument; after the last the matching query answers what it said. |
| PsuArguments.SetterChangesOneSetting | instro/psu/scpi_sim_server.py:279-442 | After an accepted setter every query of another setting answers as before, except that the output may have tripped, which is then reported. |
| PsuArguments.OutputWords | instro/psu/scpi_sim_server.py:393-405 | `ON` and `1` switch the output on and clear latch and trips, unless the channel trips at once, which is reported; `OFF` and `0` switch it off and keep them; any other word changes nothing. |
| PsuArguments.RefusedLines | instro/psu/scpi_sim_server.py:193-230 | A blank line does nothing; a line that is refused reports its one error, changes nothing else and is not answered. |
| PsuArguments.ResetThenQuery | instro/psu/scpi_sim_server.py:256-272 | After a reset every query answers the default of each channel, with protection levels at the maximum and the sense mode kept, and no error is queued. |
| PsuArguments.LimitEditLaw | instro/psu/scpi_sim_server.py:1550-1568 | After a limit edit the word for maximum sets the new limit; a negative one is ignored. |
| PsuArguments.ErrorsComeInOrder | instro/psu/scpi_sim_server.py:251-275 | The error query answers the oldest error and removes it alone; clearing the status removes all. |
| PsuArguments.NewSupply | instro/psu/scpi_sim_server.py:120-174 | A new supply has exactly the channels from one to the count asked for, each answering the defaults, with limits of 60 volts and 10 amperes. |
| PsuTrips.UpdateReportsExactly | instro/psu/scpi_sim_server.py:503-537 | An update of the supply reports exactly the trips of the channels that meet a condition, one each, in channel order, and nothing else. |
| PsuTrips.NewTripsAreExplained | instro/psu/scpi_sim_server.py:193-537 | At every point of every run, an action that changes a channel and updates the supply reports that channel's trip exactly when its new settings meet the condition, and it is this action that trips it; every other action reports no trip and trips no channel. |
| PsuTrips.ClientReadsBackWhatItSet | instro/psu/scpi_sim_server.py:193-442 | At every point of every run, after a client line that sets a value and is not refused, the client line that asks for it is answered with what the first one said, in words or as a number. |
| Psu.SimulatedPSUChannel.constructor | instro/psu/scpi_sim_server.py:120-144 | The initial state of a channel. |
| Psu.SimulatedPSUChannel.Reinitialize | instro/psu/scpi_sim_server.py:256-271 | A reset channel keeps its limits, load and sense mode and loses everything else. |
| Psu.SimulatedPSU.constructor | instro/psu/scpi_sim_server.py:165-174 | Channels numbered from one, all initial, no errors. |
| Psu.SimulatedPSU.UpdateChannel | instro/psu/scpi_sim_server.py:507-575 | Changes the channel object and the error queue as one update does. |
| Psu.SimulatedPSU.Update | instro/psu/scpi_sim_server.py:503-505 | Updates every channel, errors in channel order. |
| Psu.SimulatedPSU.Find | instro/psu/scpi_sim_server.py:182-186 | Finds the first channel with an id. |
| Psu.SimulatedPSU.RequireChannel | instro/psu/scpi_sim_server.py:459-463 | Finds the channel or reports a suffix out of range. |
| Psu.SimulatedPSU.ApplySetter | instro/psu/scpi_sim_server.py:279-442 | Every setter assigns what the argument says, or names the parse, range or protection error and changes nothing; switching the output on clears latch and trips. |
| Psu.SimulatedPSU.Set | instro/psu/scpi_sim_server.py:279-442 | A setter needs a channel and an argument, applies it, and updates the supply when it took effect. |
| Psu.SimulatedPSU.ClearLatch | instro/psu/scpi_sim_server.py:411-418 | Clears latch and trips of one channel and updates. |
| Psu.SimulatedPSU.ResetChannels | instro/psu/scpi_sim_server.py:256-272 | Resets every channel and empties the error queue. |
| Psu.SimulatedPSU.PopError | instro/psu/scpi_sim_server.py:251-254 | The oldest error leaves the queue. |
| Psu.SimulatedPSU.Query | instro/psu/scpi_sim_server.py:292-296 | A query of a channel answers from its fields; a missing channel answers zero, off or local and reports the suffix. |
| Psu.SimulatedPSU.Measure | instro/psu/scpi_sim_server.py:444-455 | A measurement updates the supply first and answers the sensed voltage or the current. |
| Psu.SimulatedPSU.Execute | instro/psu/scpi_sim_server.py:224-230 | A handler call is one step of the machine and answers what the machine answers. |
| Psu.SimulatedPSU.Process | instro/psu/scpi_sim_server.py:193-230 | A received line is one step of the machine and answers what the machine answers, including the lines that are refused. |
| Psu.SimulatedPSU.SetLoad | instro/psu/scpi_sim_server.py:1526-1536 | A load edit changes one channel's load and updates. |
| Psu.SimulatedPSU.SetLimit | instro/psu/scpi_sim_server.py:1550-1568 | A limit edit below the minimum is ignored; any other resets every channel. |
| Psu.SimulatedPSU.Add | instro/psu/scpi_sim_server.py:1491-1494 | A new channel gets the id after the highest one. |
| Psu.SimulatedPSU.Remove | instro/psu/scpi_sim_server.py:1499-1501 | The channels with another id stay, in order. |
| Scpi.NormalizeHeader | instro/psu/scpi_sim_server.py:147-157 | Strips numeric suffixes part by part; the last suffix names the channel, one by default. |
| Scpi.NormalizeStems | instro/psu/scpi_sim_server.py:147-157 | Parts that end in any digits normalize to the parts without them, and the last digits that are there name the channel. |
| Scpi.SplitSegments | instro/psu/scpi_sim_server.py:598-611 | A pattern is split into prefix, required and suffix exactly when it has that shape, and then uniquely. |
| Scpi.ComputePaths | instro/psu/scpi_sim_server.py:629-633 | The loop builds the list of spellings of a keyword list. |
| Scpi.PathsAreSpellings | instro/psu/scpi_sim_server.py:621-633 | A path is listed exactly when it takes the short or the long form of each keyword. |
| Scpi.HeadersAreExact | instro/psu/scpi_sim_server.py:584-589 | The registered headers are exactly: prefix whole or absent, the required keywords, a leading run of the suffix, each keyword short or long. |
| ScpiCommands.FormsOfKeyword | instro/psu/scpi_sim_server.py:621-626 | The two forms of each keyword of the table. |
| ScpiLines.TableInWords | instro/psu/scpi_sim_server.py:636-686 | The table written out: every command is reached under its name, for writing and for asking. |
| ScpiCommands.HeadersAreDisjoint | instro/psu/scpi_sim_server.py:636-686 | No header belongs to two commands. |
| ScpiCommands.HeadersHaveNoQuestionMark | instro/psu/scpi_sim_server.py:591-596 | No header contains a question mark, so keys for writing and for asking never meet. |
| ScpiCommands.LookupIff | instro/psu/scpi_sim_server.py:591-596 | A key is looked up to a handler exactly when some command registered it, as one of its headers for writing or as one and a question mark for asking, whatever the order of registration. |
| ScpiClient.ClientLinesAreUnderstood | instro/psu/drivers/simulated.py:20-98 | Every line the client prints, for every channel number, reaches the intended handler with that channel and that argument; the error query after each command reaches the error handler. |
| ScpiClient.QueryTakesArgumentsIff | instro/psu/scpi_sim_server.py:202-222 | A line with arguments reaches a handler that asks exactly when its header ends in a digit after the question mark. |
| ScpiClient.QuestionMarkBeforeTheNumber | instro/psu/scpi_sim_server.py:147-222 | Every header of every registered query, `*IDN?` among them, also reaches its handler with the channel number after the question mark, with any arguments. |
| ScpiLines.ArgumentsOfParts | instro/psu/scpi_sim_server.py:202-222 | Arguments are the parts between commas without the spaces around them; empty parts are dropped. |
| ScpiLines.LineWithArguments | instro/psu/scpi_sim_server.py:193-230 | Spaces around a line and after its header do not matter; its arguments reach the handler in order. |
| ScpiLines.LineWithoutArguments | instro/psu/scpi_sim_server.py:193-230 | A line that is a header alone is handled without arguments, whatever spaces are around it. |
| ScpiLines.BlankLine | instro/psu/scpi_sim_server.py:193-230 | A line of spaces is ignored. |
| ScpiLines.CaseDoesNotMatter | instro/psu/scpi_sim_server.py:147-157 | Headers that differ in case alone are handled alike. |
| ModbusCodec.SwapBytes | instro/modbus/modbus.py:557-558 | The loop exchanges the two bytes of every word. |
| ModbusCodec.SwapWords | instro/modbus/modbus.py:560-568 | The loop swaps the two words of every four bytes and keeps a shorter rest. |
| ModbusLayout.ByteSwapAt | instro/modbus/modbus.py:557-558 | Each byte of a byte swap is the other byte of its word. |
| ModbusLayout.WordSwapAt | instro/modbus/modbus.py:560-568 | Each byte of a word swap is the byte two places on in the first half of its four bytes, two places back in the second. |
| ModbusLayout.LongSwapAt | instro/modbus/modbus.py:570-571 | Each byte of a long swap is the byte four places away. |
| ModbusCodec.EncodeBytes | instro/modbus/modbus.py:621-637 | Long, word and byte swaps in this order, then big-endian words. |
| ModbusCodec.DecodeBytes | instro/modbus/modbus.py:555-571 | Big-endian bytes, then byte, word and long swaps in this order. |
| ModbusLayout.DecodedValue | instro/modbus/modbus.py:551-593 | For every swap combination the words of a register decode to the number that weighs them by their place, each with the value of its bytes in the order read and in the place to which the swaps move it. |
| ModbusLayout.DecodedPair | instro/modbus/modbus.py:551-593 | A byte-swapped word counts its low byte 256 times; of two words the first counts 65536 times, of two swapped words the second. |
| ModbusLayout.DecodedQuad | instro/modbus/modbus.py:551-593 | A word swap exchanges the words of each half of four, a long swap the halves, both reverse them. |
| ModbusCodec.SwapsCancel | instro/modbus/modbus.py:557-571 | Encoding and decoding swaps undo each other for every combination, in both directions. |
| ModbusCodec.DecodeOfEncodeBits | instro/modbus/modbus.py:551-637 | Every bit pattern of a type's size survives encoding and decoding. |
| ModbusCodec.EncodeOfDecodeBits | instro/modbus/modbus.py:551-637 | Every register content is the encoding of its decoding. |
| ModbusCodec.DecodeOfEncodeInt | instro/modbus/modbus.py:573-610 | Every integer in range survives, signed or unsigned, for every swap combination. |
| ModbusCodec.EncodeOfDecodeInt | instro/modbus/modbus.py:573-610 | Every register content decodes to an integer in range that encodes back to it. |
| ModbusRegister.EntryAcceptedIffWritable | instro/modbus/types.py:235-295 | A value-map entry of an integer or bool holding register is accepted at load time exactly when writing it passes every run-time check and encodes. |
| ModbusLayout.SwapsAcceptedIff | instro/modbus/types.py:188-196 | Swaps are accepted exactly for types with enough words: two for a word swap, four for a long swap. |
| ModbusRegister.LimitsPreventOverflow | instro/modbus/types.py:216-233 | With both limits accepted, a value between them has a raw value in range for either sign of the gain, and a write of it fails only for being fractional or a bool. |
| ModbusRegister.LimitsAcceptedIff | instro/modbus/types.py:213-233 | Two limits of an integer register are accepted exactly when they are in order and every value between them has a raw value in range, for either sign of the gain. |
| ModbusRegister.UnscaledRoundTrip | instro/modbus/modbus.py:339-427 | An integer written without a scale decodes to the same number. |
| ModbusRegister.ScaledRoundTrip | instro/lib/types.py:118-128 | An integer written through a scale decodes to within the gain times one millionth. |
| ModbusConfig.ValidateNames | instro/modbus/types.py:416-431 | Accepts exactly the configurations whose register and bit names are all distinct. |
| ModbusConfig.ValidateNoOverlap | instro/modbus/types.py:384-414 | Accepts exactly the configurations in which no two registers of a type share an address. |
| ModbusConfig.OverlapsIff | instro/modbus/types.py:390-409 | Two registers overlap exactly when some address belongs to both. |
| ModbusConfig.NoOverlapByType | instro/modbus/types.py:384-409 | Checking pairs type by type is checking all pairs of one type. |
| ModbusConfig.SortFacts | instro/modbus/types.py:391-460 | Sorting by address permutes, orders, and neither hides nor creates an overlap. |
| ModbusConfig.ValidateGroups | instro/modbus/types.py:433-451 | Accepts exactly the configurations whose groups are polled and of one type each. |
| ModbusConfig.BuildGroupIndex | instro/modbus/types.py:453-461 | The index holds every group once, with its registers sorted by address. |
| ModbusConfig.ValidateSpans | instro/modbus/types.py:463-481 | Accepts exactly the configurations whose groups fit one read. |
| ModbusConfig.SpansAcceptedIff | instro/modbus/types.py:463-481 | Groups are accepted exactly when no two registers of a group lie further apart than 125 registers, or 2000 bits. |
| ModbusConfig.Validate | instro/modbus/types.py:344-351 | The checks across registers together. |
| ModbusConfig.GroupLayout | instro/modbus/types.py:384-481 | In an accepted configuration a group read covers every member, members share no address, and the count is within 125 registers or 2000 bits and the address space. |
| ModbusAccess.BuildRegisterChannels | instro/modbus/modbus.py:262-271 | The loop builds the channels of one register. |
| ModbusAccess.ReadingChannels | instro/modbus/modbus.py:262-271 | A reading publishes the scaled value and each listed bit of the raw value under their names, and nothing else. |
| ModbusLayout.PublishedValue | instro/modbus/modbus.py:209-271 | A read publishes, under the name of the device, a dot and the name of the register, the gain times the raw number plus the offset, the raw number being that of the words in the table of its type, in two's complement when signed. |
| ModbusLayout.PublishedBits | instro/modbus/modbus.py:262-271 | Each listed bit is published as that binary digit of the word of the register. |
| ModbusAccess.SliceOfSpan | instro/modbus/modbus.py:246-256 | The slice of a span read that belongs to a register is in bounds and decodes to what reading that register alone returns. |
| ModbusAccess.MergedKeepsEveryReading | instro/modbus/modbus.py:244-258 | Readings of registers with distinct names never overwrite each other's channels. |
| ModbusAccess.GroupReadIsUnion | instro/modbus/modbus.py:218-260 | A group read publishes exactly the union of the members' single readings. |
| ModbusAccess.FindsEveryRegister | instro/modbus/types.py:501-506 | With distinct names every register is found under its own name. |
| ModbusAccess.WriteThenRead | instro/modbus/modbus.py:281-427 | A successful write reads back exactly, within tolerance when scaled, as the unpacked bits for floating point; a scaled bool exactly when it scales to zero or one. |
| ModbusWrites.IntegerWriteLaw | instro/modbus/modbus.py:281-427 | A write to an integer holding register succeeds exactly when the value is within the limits and stands for an integer in range; then exactly the words of the register change, and they decode to that integer. |
| ModbusWrites.FloatWriteLaw | instro/modbus/modbus.py:281-427 | A write to a floating-point holding register succeeds exactly when the value is within the limits and its raw value can be packed; then the words of the register, weighed by their place, make up the packed bits, and no others change. |
| ModbusWrites.BoolWriteLaw | instro/modbus/modbus.py:281-427 | A truth-valued holding register takes truth values, zero and one within its limits, and holds one unless the raw value is zero. |
| ModbusWrites.OtherWriteLaws | instro/modbus/modbus.py:281-427 | A coil takes truth values, zero and one and nothing else, at its own address; input registers and discrete inputs are refused; a value beyond a limit is refused by the limit it breaks. |
| ModbusWrites.LabelWriteLaw | instro/modbus/modbus.py:297-309 | A label is written as the value it stands for; without a value map, or when unknown, it is refused. |
| ModbusAccess.ScaledBool | instro/modbus/modbus.py:590-617 | When a scaled bool keeps its value. |
| ModbusAccess.WriteKeepsOtherReadings | instro/modbus/modbus.py:281-335 | A write, successful or not, changes the reading of no other register of an accepted configuration. |
| ModbusAccess.LabelsAreWritable | instro/modbus/modbus.py:297-309 | Every label of an accepted value map can be written and resolves to its value. |
| ModbusDevice.WriteAliasThenReadAlias | instro/modbus/modbus.py:209-335 | Writing by alias and reading by the same alias publishes the written value under that alias, as exactly as the register can hold it. |
| ModbusDevice.EachPolledRegisterOnce | instro/modbus/modbus.py:139-148 | Every polling round reads each polled register exactly once, alone or in its group, and no other. |
| ModbusDevice.GroupedIff | instro/modbus/modbus.py:139-148 | The daemon's test by name finds exactly the grouped registers. |
| ModbusDevice.ModbusDevice.constructor | instro/modbus/modbus.py:120-125 | A new device is valid and has the polling plan of its configuration. |
| ModbusDevice.ModbusDevice.DefineBackgroundDaemon | instro/modbus/modbus.py:139-148 | The two loops register one call a group and one call a polled register outside groups. |
| ModbusDevice.ModbusDevice.Read | instro/modbus/modbus.py:209-216 | Reads one register by alias. |
| ModbusDevice.ModbusDevice.ReadGroup | instro/modbus/modbus.py:218-260 | One span read, cut up afterwards, publishes what reading the members one by one publishes. |
| ModbusDevice.ModbusDevice.Write | instro/modbus/modbus.py:281-335 | Writes by alias, by value or by label; a refused write names its reason and leaves the tables alone. |
| RingBuffer.NumpyRingBuffer.constructor | instro/lib/publishers/channel_buffer.py:283-287 | A new ring represents the empty history. |
| RingBuffer.NumpyRingBuffer.Extend | instro/lib/publishers/channel_buffer.py:289-316 | Extending by any number of values extends the represented history by them. |
| RingBuffer.NumpyRingBuffer.Overwrite | instro/lib/publishers/channel_buffer.py:296-301 | More values than fit replace the contents by the last ones. |
| RingBuffer.NumpyRingBuffer.WriteFrom | instro/lib/publishers/channel_buffer.py:303-313 | The values occupy the slots from the write position on, across the end, and no other slot changes. |
| RingBuffer.NumpyRingBuffer.GetLatest | instro/lib/publishers/channel_buffer.py:318-332 | Returns the last elements of the history, as many as asked for and kept. |
| RingBuffer.NumpyRingBuffer.Len | instro/lib/publishers/channel_buffer.py:334-336 | The length is that of the history, up to the capacity. |
| RingBuffer.WriteAppends | instro/lib/publishers/channel_buffer.py:303-316 | Writing slots ahead of the write position appends to the represented history. |
| RingBuffer.ReadsNewest | instro/lib/publishers/channel_buffer.py:323-332 | Slots read up to the write position are the end of the history. |
| RingBuffer.ExtendTwice | instro/lib/publishers/channel_buffer.py:289-332 | Extending twice is observably extending once by the concatenation. |
| RingBuffer.BoundedDeque.Extend | instro/lib/publishers/channel_buffer.py:197-201 | A bounded deque keeps the newest values of its history. |
| RingBuffer.BoundedDeque.GetLatest | instro/lib/publishers/channel_buffer.py:206-208 | Returns the last elements of the history. |
| RingBuffer.BuffersAgree | instro/lib/publishers/channel_buffer.py:191-257 | The ring and the deque of one capacity and history answer alike. |
| ChannelPublisher.BufferTable.Ensure | instro/lib/publishers/channel_buffer.py:195-198 | A channel that is not there gets an empty buffer of its own; the others keep theirs. |
| ChannelPublisher.BufferTable.Append | instro/lib/publishers/channel_buffer.py:191-257 | Extends the buffer of one channel, making it if needed, and no other, for either kind of buffer. |
| ChannelPublisher.InMemoryPublisher.constructor | instro/lib/publishers/channel_buffer.py:237-240 | A new publisher of either kind is open and holds nothing. |
| ChannelPublisher.InMemoryPublisher.Publish | instro/lib/publishers/channel_buffer.py:57-67 | Extends each channel of the measurement and its timestamps and counts the samples. |
| ChannelPublisher.InMemoryPublisher.Close | instro/lib/publishers/channel_buffer.py:176-183 | Marks the publisher closed and clears buffers and counts. |
| ChannelPublisher.InMemoryPublisher.AwaitChannel | instro/lib/publishers/channel_buffer.py:84-106 | A wait for a channel ends with a missing channel, a closed publisher, or the channel. |
| ChannelPublisher.InMemoryPublisher.BeginWait | instro/lib/publishers/channel_buffer.py:144-146 | A wait for new samples starts from the number of samples counted so far. |
| ChannelPublisher.InMemoryPublisher.EndWait | instro/lib/publishers/channel_buffer.py:148-174 | What a woken wait for new samples returns or raises. |
| ChannelPublisher.InMemoryPublisher.EndBufferedWait | instro/lib/publishers/channel_buffer.py:108-139 | What a woken wait for buffered samples, or one whose time is used up, returns or raises. |
| ChannelPublisher.ReadNewSamples | instro/lib/publishers/channel_buffer.py:69-174 | A read of new samples amid any publishes and closes answers alike on ring buffers and on deques, and what it answers is a function of those events, which `NewReadReturnsNewest` characterises. |
| ChannelPublisher.ReadBufferedSamples | instro/lib/publishers/channel_buffer.py:94-139 | A read of buffered samples, from the refusal on a closed publisher on, likewise; one without time left ends where it found the channel. |
| ChannelBuffer.BuffersHoldNewest | instro/lib/publishers/channel_buffer.py:57-67 | After any publishes and closes the buffers hold the newest samples since the last close and the counter counts them all. |
| ChannelBuffer.WaitReturnsNewSamples | instro/lib/publishers/channel_buffer.py:141-174 | A wait on an open publisher returns exactly the newest samples, all published during the wait, each with its own timestamp. |
| ChannelBuffer.NewReadReturnsNewest | instro/lib/publishers/channel_buffer.py:69-174 | A whole read of new samples from a publisher that stays open fails for a channel that does not appear, times out when fewer samples than asked for are published during the wait, and otherwise returns the newest of those that were, each with its timestamp. |
| ChannelBuffer.ChannelIsThereIff | instro/lib/publishers/channel_buffer.py:57-67 | Until it is closed, a publisher knows exactly the channels that were published. |
| ChannelBuffer.BufferedReadReturnsNewest | instro/lib/publishers/channel_buffer.py:97-139 | A read of buffered samples from a publisher that stays open fails for a channel that was never published; otherwise it succeeds exactly when the buffer holds enough or the time is used up; it returns the newest samples, as many as asked for exactly when the buffer holds that many. |
| ChannelBuffer.ExpiredReadCanBeShort | instro/lib/publishers/channel_buffer.py:108-134 | A read without time left that returns two samples when asked for three. |
| ChannelBuffer.DataAfterCloseIff | instro/lib/publishers/channel_buffer.py:145-174 | A wait for new samples overtaken by a close returns data exactly when enough samples of the channel follow the close, and then the newest of those. |
| ChannelBuffer.BufferedDataAfterCloseIff | instro/lib/publishers/channel_buffer.py:97-139 | A wait for buffered samples overtaken by a close returns data exactly when the buffer can hold that many and that many follow the close, and then the newest of those. |
| ChannelBuffer.NoDataAfterFinalClose | instro/lib/publishers/channel_buffer.py:176-183 | After a close that no publish follows, no waiting read returns data. |
| ChannelBuffer.NoDataWhenStartedClosed | instro/lib/publishers/channel_buffer.py:81-162 | A read of either kind that starts on a closed publisher never returns data, whatever is published before it starts, while it looks for the channel, and until it starts counting. |
| ChannelBuffer.ClosedPublisherCanReturnData | instro/lib/publishers/channel_buffer.py:97-174 | A run in which a closed publisher hands out data on both kinds of read. |
| Publishers.BasicBufferedPublisher.PublishBatch | instro/lib/publishers/publisher.py:45-47 | Passes on all buffered data, in order, without keyword arguments. |
| Publishers.BasicBufferedPublisher.Publish | instro/lib/publishers/publisher.py:29-33 | Buffers the data of a call, drops its keyword arguments, and passes the batch on when it is full. |
| Publishers.BasicBufferedPublisher.Close | instro/lib/publishers/publisher.py:39-41 | Passes on what is buffered, and then closes the inner publisher. |
| Publishers.BufferConserves | instro/lib/publishers/publisher.py:29-33 | Delivered data followed by buffered data is the accepted data, stripped of keyword arguments; the buffer holds the remainder of the last batch. |
| Publishers.CloseDeliversAll | instro/lib/publishers/publisher.py:39-47 | A close delivers everything in order and then closes the inner publisher; a second one repeats the last partial batch after that and closes again. |
| Publishers.RunKeepsInv | instro/lib/publishers/publisher.py:50-86 | Puts are deliveries, then the item in the worker's hands, then the queue, in every reachable state. |
| Publishers.DeliveredIsPrefixOfPuts | instro/lib/publishers/publisher.py:59-75 | In every interleaving deliveries are a prefix of the puts. |
| Publishers.WaitingCloseDeliversEarlierPuts | instro/lib/publishers/publisher.py:68-86 | With `wait_for_queue`, the inner publisher has every put completed before the stop when it is closed, and gets nothing after. |
| Publishers.HastyCloseCanLoseAPut | instro/lib/publishers/publisher.py:68-86 | A run without `wait_for_queue` that loses a completed put. |
| Publishers.LatePutCanBeLost | instro/lib/publishers/publisher.py:59-69 | A run with `wait_for_queue` that loses a put overlapping the close. |
| Publishers.LostPutsAreTheQueue | instro/lib/publishers/publisher.py:59-75 | In every interleaving, once the worker has left, the lost puts are exactly the queue, a suffix of all puts: those completed after its last check for an empty queue, or, without `wait_for_queue`, also those queued at its last check of the stop event. |
| Publishers.CloseIsBounded | instro/lib/publishers/publisher.py:68-86 | After the stop event only a bounded number of worker steps and puts can happen, in every interleaving, and until the inner publisher is closed the worker or the join can go on. |
| Publishers.FullQueueBlocksForever | instro/lib/publishers/publisher.py:59-75 | A publish that waits for room in a full queue when the worker has left never ends. |
| I2c.SignExtendIsTwosComplement | instro/i2c/types.py:101-113 | Sign extension reads the bits as two's complement. |
| I2c.SliceIsDivision | instro/i2c/types.py:115-123 | Masking and shifting takes the binary digits of the field, for negative numbers too. |
| I2c.RegisterReads | instro/i2c/types.py:101-145 | A transfer reads as the digits of its field, in two's complement when signed, times the gain plus the offset when the scaling is linear. |
| I2c.PackThenExtract | instro/i2c/types.py:115-138 | Accepted data comes back and the packed value fits the transfer, when the field lies inside it. |
| I2c.RoundTripsIffFieldFits | instro/i2c/types.py:115-138 | A format round-trips every accepted value exactly when its field lies inside the transfer. |
| I2c.FieldTooWideLosesTopBit | instro/i2c/types.py:125-138 | A value that a field sticking out of the transfer loses. |
| I2c.ExtractThenPack | instro/i2c/types.py:115-138 | Packing what was extracted is the transfer restricted to the field. |
| I2c.PhysicalRoundTripIff | instro/i2c/types.py:140-160 | Accepted data converts to physical units and back to the same transfer exactly when its scaling can be inverted at it; without a scaling, exactly when it is not negative. |
| I2c.InsertFieldBits | instro/i2c/i2c.py:225-228 | Bit by bit: the value's bits inside the field, the old bits outside. |
| I2c.InsertThenReadField | instro/i2c/i2c.py:173-175 | An inserted field reads back as the value modulo two to its width. |
| I2c.InsertKeepsOtherField | instro/i2c/i2c.py:225-228 | A disjoint field keeps its value. |
| I2c.InsertFits | instro/i2c/i2c.py:225-230 | The new register value fits exactly when the inserted bits do. |
| I2cInterface.PrefixesCollideIff | instro/i2c/i2c.py:105-112 | Two register indices share a prefix exactly when they are equal, modulo 256 for one-byte prefixes. |
| I2cInterface.SameRegisterIff | instro/i2c/i2c.py:105-112 | Two aliases of a device are one register of the bus exactly when their indices are equal, modulo 256 when one byte is sent. |
| I2cInterface.PrefixBytes | instro/i2c/i2c.py:105-112 | A two-byte index is sent high byte first and refused when it needs more; a one-byte index is sent modulo 256. |
| I2cInterface.ByteOfRegister | instro/i2c/i2c.py:114-127 | The weight of each byte of a register: falling from the first byte in big-endian order, rising in little-endian order. |
| I2cInterface.TwoByteRegister | instro/i2c/i2c.py:114-127 | Of two bytes the first counts 256 times in big-endian order, the second in little-endian order. |
| I2cInterface.I2CInterface.Read | instro/i2c/i2c.py:140-179 | Reads the bytes that the bus holds at the address of the device and the index of the register, high byte first, in the byte order of the register, and answers them in physical units or the bits of one field; or names the error. |
| I2cInterface.I2CInterface.Write | instro/i2c/i2c.py:193-232 | Writes a register, or reads, modifies and writes one field: exactly the bytes at that address and index change, to those of the new value in the byte order of the register; a refused write leaves the bus alone. |
| I2cInterface.WriteThenReadField | instro/i2c/i2c.py:150-232 | A written field reads back modulo two to its width, for any register width and byte order. |
| I2cInterface.WriteFieldKeepsTheRest | instro/i2c/i2c.py:212-232 | Every other bit, every disjoint field and every other register stay as they were. |
| I2cInterface.WriteAndOtherAlias | instro/i2c/i2c.py:150-232 | A write to one alias leaves every read of another alias with a different index alone; aliases of one index, width and byte order read the same bits. |
| I2cInterface.WriteFieldSucceedsIff | instro/i2c/i2c.py:212-232 | A field write on a register that answers fails exactly when the value has a bit that would land beyond the register. |
| I2cInterface.WriteThenReadRegister | instro/i2c/i2c.py:150-232 | A whole-register write succeeds exactly for the values that fit the transfer, and the value reads back as its data in physical units. |
| I2cInterface.WritePackedThenRead | instro/i2c/i2c.py:150-232 | Packed data survives a whole-register write and reads back in physical units. |

## Left out

- OPC UA: continuation points and decoding of references (`browse_node`), sessions, reconnects, the plain polling loop, metrics and cancellation of a stream session; a subscription run ends by a dropped client or by the end of the stream.
- OPC UA subscription: the boundaries and empty calls of `on_data`; emissions are one flat sequence. When one read answers twice for a node, the later answer is the accepted one.
- OPC UA browse: the server's graph does not change during a browse. No condition on the graph alone is proved to be necessary for a limited browse to be complete; the exact condition is one on the result.
- OPC UA node ids: the wording of parse errors; identifiers other than numeric and string ones are not part of this model.
- PSU: floating-point rounding, infinite or undefined limits, EMF and probe resistances; quantities are reals, and a load resistance may be an open circuit.
- PSU: measurement noise, the command log, the text form of answers, the socket server and the screens; operator edits are modelled as steps. `float(token)` is a parameter of the model. Channels do not share a load object.
- PSU: the regular-expression scan of a command pattern; patterns are given as keywords with their brackets already read. Header text is ASCII.
- PSU client: formatting of numbers, and what the client makes of the answers; an argument is any text without spaces and commas at its ends.
- Modbus: transport failures, locking, reconnecting, JSON loading, coercion by the configuration library, and error texts; the device is four tables of 65536 entries that only the modelled writes change.
- Modbus: `float32` and `float64` packing is an opaque codec, so a floating-point write is stated to put the packed bits into the words and to come back as their unpacking; other numbers are integers and reals, without floating-point rounding.
- Modbus: the per-register checks are predicates over one definition, not the loops that collect duplicates for the error message.
- Modbus: wall-clock write delays and timestamps.
- Channel buffers: the dtype cast of the numpy publisher, negative lengths, `size_bytes`, and time; when a wait times out is left open, and whether a buffered read has time left when it has found its channel is a parameter.
- ChannelBuffer.WaitReturnsNewSamples: stated for measurements whose channels are as long as their timestamps, because values and timestamps are otherwise buffered out of step.
- Publishers: an inner publisher that raises, and log messages. A keyword argument is a text.
- ChannelPublisher.ReadNewSamples: the publishes and closes of other threads are given as event lists between the steps of the reader, because each of them runs under the lock.
- I2C: bus errors, channel names, floating-point rounding (quantities are reals), scaling functions that raise, command devices and batch commands; every register index of a device has its own bytes.
- Vendor drivers, instrument wrappers, file and cloud publishers, discovery, EtherNet/IP and the migration script: string formatting and plumbing.
