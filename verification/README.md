# OpenDaVINCI: a verified model of its coordinator and its algorithms

This project models the parts of OpenDaVINCI whose behaviour is hardest to see from the code, and proves
what they keep over all runs. `dafny verify dfyconfig.toml` checks it.

The **supercomponent** registers client modules, pulses them cycle by cycle, relays their containers to the
next cycle, and deletes the modules that have gone. `Lifecycle` describes who owns a connected module, one
step a callback or sweep. `LockSections` cuts the same callbacks at their locks, `Interleavings` shows that
every interleaving is a run of `Lifecycle` as far as it goes, and that only a connection whose module has been
dropped can end it, by using NULL or a deleted module. `Connections` lets callbacks of one descriptor text
overlap, `ListenerLocks` adds the listener mutexes and says when the loop and a callback wait for each other
for ever. `ConnectedModules` and `SuperComponent` are the classes themselves, updated
in place; each callback is proved to be one `Lifecycle` step, and the loop to follow the pacing of
`Schedule` and the relay of containers, for every clock, every answer of the modules and every order of
callbacks. `Options` decides which modules are skipped. `StringOrder` is the order in which `std::map`
iterates.

**Configurations** are read, printed and cut into sections by `KeyValueConfiguration`, on top of the loops
of `StringToolbox`. `GlobalConfiguration` decides which keys a module is given.

`ReferenceCounting` and `SharedPointer` are the reference-counting handle: the first as functions on a
memory value with the theorems about runs, the second as heap objects with aliasing that refine them.

`Kalman` (with `Matrix`) is the filter loop of example 4 in exact real arithmetic. `LockStep` composes the
sender and the receiver of the managed-level test. `CxxTestGen` is the scanner and the writer of the test
generator. `TimeStamp` holds the fixed-width arithmetic, `Wrappers` an option type.

## Where code and documentation disagree

The models follow the code.

- The header of the key-value configuration promises the entries that start with the section
  (libopendavinci/include/core/base/KeyValueConfiguration.h:129-130); the code selects those that contain
  it anywhere. `GlobalConfigurations.AnotherModulesKey` is an instance, `OnlyOwnKeysIff` the exact
  condition under which a module is given none but its own keys.
- Rewriting identifier keys is injective on keys of the module's own section (`RewriteOfOwnSection`), but
  not on all selected keys (`TwoEntriesOneKey`): `CollideIff` and `StayApartIff` say exactly when two
  entries become one. It does nothing useful for identifiers with capital letters (`CapitalIdentifier`).
- The value of an identifier entry, and the list of excluded modules, is cut after its first word. A single
  excluded name excludes nothing (`ListedNamesAreSkipped`, `BlankEndsTheList`).
- The text by which the registry knows a module does not determine its descriptor (`MistakenForEachOther`).
- `TimeStamp` addition can leave a full second in the microseconds (`PlusMicroseconds`).
- The difference of the lock-step test is zero for the first 10001 values and, as long as the sum of the
  values fits in 32 bits, for no more (`DifferenceIff`); after an overflow the exact condition is that of
  `DifferenceIsZeroIff`. It is also zero for a receiver that connects exactly one cycle late, until the
  counter starts over (`LateReceiver`).
- The reference-counting handle deletes a pointee as often as it was wrapped, not once
  (`DeletedAsOftenAsWrapped`, `DeletedAtMostOnceIff`).
- A lost connection looks into the shutdown registry in two lock sections. If the loop sweeps before the
  module it finds is used, NULL or a deleted module is dereferenced, and only then
  (`LostLookupFailsIffSwept`). That connection is always one whose module has been dropped, such as a duplicate
  that still listens (`DroppedConnectionFails`): deleting a module waits for the callbacks of its own
  connection (`OwnCallbackNeverFails`, `OwnLookupIsNotSwept`).
- A duplicate descriptor only draws a warning (supercomponent/src/SuperComponent.cpp:345-347), but from then on
  its callbacks and those of the registered module can overlap, and then either can use NULL. Different texts
  are exactly what makes a new connection safe (`ConnectIsSafeIff`, `DistinctTextsAreSafe`).
- Sweeping and closing down take listener mutexes while they hold a registry; callbacks take them the other way
  round. The two deadlock exactly when the callback still has to enter that registry (`DeadlockIff`), and the
  normal end of a module is enough for it (`NormalEndMayDeadlock`, `CloseDownMayDeadlock`).
- The test generator loses tests of inline suites that stand outside a block or on the line that ends one
  (`NoTestIsLostIff`).

## Model

| member | source | states |
|---|---|---|
| ReferenceCounting.ReleaseKeepsInv | include/core/SharedPointer.h:124-134 | releasing any handle of a good memory touches no deleted block, detaches exactly that handle and keeps every counter equal to the number of live handles of its block; with the last handle pointee and block are deleted |
| ReferenceCounting.AcquireKeepsInv | include/core/SharedPointer.h:165-170 | attaching an unattached handle to a live block with room keeps the counters exact |
| ReferenceCounting.ConstructKeepsInv | include/core/SharedPointer.h:51-56 | wrapping a fresh raw pointer, or NULL, keeps the invariant |
| ReferenceCounting.AssignKeepsInv | include/core/SharedPointer.h:91-100 | assignment between any two different live handles, those that share a block included, keeps the invariant and reads no deleted block |
| ReferenceCounting.DestroyKeepsInv | include/core/SharedPointer.h:58-60 | destroying a handle keeps the invariant for the remaining ones |
| ReferenceCounting.StepKeepsInv | include/core/SharedPointer.h:51-134 | every legal operation has a result (nothing deleted is touched) that is good again |
| ReferenceCounting.HandlesAfter | include/core/SharedPointer.h:51-134 | after an assignment, as after a copy, the target refers to exactly the block the source refers to; a constructed handle refers to the new block, a released one to none; no other handle changes |
| ReferenceCounting.LeadsAfter | include/core/SharedPointer.h:51-134 | which handle leads to which pointee after each operation: the target of an assignment or copy leads where the source did, all others where they did before |
| ReferenceCounting.RunsAreSafe | include/core/SharedPointer.h:51-170 | every legal sequence of construct, copy, assign, release and destroy completes; afterwards every counter is the number of live handles, no handle dangles, and pointees and blocks were deleted at most once, a pointee exactly when no handle leads to it |
| ReferenceCounting.OwnedIffReachable | include/core/SharedPointer.h:124-134 | a live block holds a pointee if and only if some live handle leads to it |
| ReferenceCounting.DeletedWhenTheLastHandleLeaves | include/core/SharedPointer.h:124-134 | a pointee is deleted in a step if and only if that step takes its last handle away, and is never reachable again |
| ReferenceCounting.NoHandlesNoLeaks | include/core/SharedPointer.h:58-134 | when the last handle is gone no block is left and every wrapped pointee was deleted exactly once |
| ReferenceCounting.CopyIsSafeIffThereIsRoom | include/core/SharedPointer.h:154-170 | copying keeps the invariant if and only if the block has fewer than 2^32 - 1 handles: the exact limit of the 32-bit counter |
| ReferenceCounting.WrapIsSafeIff | include/core/SharedPointer.h:51-56 | from any good memory, wrapping a raw pointer gives a good memory if and only if that pointer was not wrapped before |
| ReferenceCounting.StepConserves | include/core/SharedPointer.h:51-134 | an operation of the class, with room for the counter, touches no deleted block even if pointers were wrapped more than once, and for every pointee the deletions done and still due change by nothing but wrapping it once more |
| ReferenceCounting.DeletedAsOftenAsWrapped | include/core/SharedPointer.h:51-170 | every run that respects the counter limit: a pointee has been deleted as often as it was wrapped if and only if no handle leads to it any more, and less often before |
| ReferenceCounting.DeletedAtMostOnceIff | include/core/SharedPointer.h:51-170 | once all handles are gone a pointee has been deleted at most once if and only if it was wrapped at most once |
| ReferenceCounting.LegalRunIff | include/core/SharedPointer.h:51-170 | the runs for which RunsAreSafe is proved are exactly those that respect the counter limit and wrap no pointer twice |
| ReferenceCounting.WrappingTwiceDeletesTwice | include/core/SharedPointer.h:51-134 | once a raw pointer has been wrapped before, from any good memory: wrapping it again and then destroying the handles that lead to it, in any order, has deleted it exactly twice |
| SharedPointers.CountablePointer.constructor | include/core/SharedPointer.h:148-150 | a new counting block starts at one |
| SharedPointers.SharedPointer.constructor | include/core/SharedPointer.h:51-56 | a new handle with a block of its own, counter one, for the pointer, or none for NULL; to the heap it does what DoConstruct does to the memory value |
| SharedPointers.SharedPointer.Copy | include/core/SharedPointer.h:78-81 | afterwards both handles share the block of the source; the copy constructor refines DoAcquire |
| SharedPointers.SharedPointer.IsValid | include/core/SharedPointer.h:68-70 | true if and only if the handle leads to a wrapped pointee |
| SharedPointers.SharedPointer.Release | include/core/SharedPointer.h:124-134 | release refines DoRelease on heap objects, with aliasing |
| SharedPointers.SharedPointer.Acquire | include/core/SharedPointer.h:165-170 | the handle refers to the given block; acquire refines DoAcquire |
| SharedPointers.SharedPointer.Assign | include/core/SharedPointer.h:91-100 | afterwards both handles share the block the source had; operator= refines DoAssign |
| SharedPointers.SharedPointer.Destroy | include/core/SharedPointer.h:58-60 | the destructor refines DoDestroy |
| Lifecycle.StepKeepsInv | supercomponent/src/SuperComponent.cpp:341-395 | every atomic callback, sweep and close-down from a good state dereferences no NULL and leaves both registries free of NULL, disjoint, duplicate-free and free of deleted modules |
| Lifecycle.MoveKeepsInv | supercomponent/src/SuperComponent.cpp:366-386 | moving a module to the shutdown registry takes exactly it from the active one and replaces at most the entry of the same descriptor |
| Lifecycle.EntriesAfter | supercomponent/src/SuperComponent.cpp:231-395 | what each event does to the entries of every text: a new module is registered unless its text is, an exit code or a lost connection moves the active entry to the shutdown registry, deleting empties one registry, and no other entry changes |
| Lifecycle.FreedAfter | supercomponent/src/ConnectedModules.cpp:154-166 | an event frees exactly the modules of the registry it deletes, each once, and callbacks free none |
| Lifecycle.DeletedExactlyOnce | supercomponent/src/ConnectedModules.cpp:154-166 | deleting all modules of a registry deletes each of its modules exactly once and no other |
| Lifecycle.EveryModuleIsInOnePlace | supercomponent/src/SuperComponent.cpp:231-395 | after every run each module ever created is in exactly one place: active, shut down, freed once, or dropped |
| Lifecycle.DroppedGrowsOnlyByLoss | supercomponent/src/SuperComponent.cpp:341-395 | a step drops exactly the module of a descriptor that is connected already, or the module of a shutdown entry it overwrites |
| Lifecycle.LifetimeFreesAllButTheDropped | supercomponent/src/SuperComponent.cpp:231-395 | after closing down and destroying both registries exactly the modules never dropped have been freed, each once |
| LockSections.NextKeepsInv | supercomponent/src/SuperComponent.cpp:341-395 | any lock section, or step of the loop, keeps what every callback knows about its descriptor; it dereferences NULL or a deleted module exactly if it is the callback whose looked-up shutdown entry has been swept, or the loop where such a lookup has inserted NULL |
| LockSections.NextRefines | supercomponent/src/SuperComponent.cpp:341-395 | every lock section that does not fail so is one atomic callback, one atomic sweep, or invisible, sweeps in the middle of a lookup included |
| Interleavings.RunActionsRefine | supercomponent/src/SuperComponent.cpp:341-395 | every interleaving of enabled steps is a run of atomic callbacks in the order in which they take effect, as far as it goes; if it fails, it does so where a connection whose module has been dropped (a duplicate text, or an overwritten shutdown entry) looked into the swept shutdown registry. To go on means to dereference nothing dead, not freedom from deadlock |
| Interleavings.UndisturbedCallIsAtomic | supercomponent/src/SuperComponent.cpp:341-395 | each of the four callbacks, run section by section with nothing in between, ends in the state of the atomic event it stands for |
| Interleavings.OwnCallbackNeverFails | libopendavinci/src/core/dmcp/connection/ModuleConnection.cpp:184-277 | in no interleaving does a callback of a connection whose module has not been dropped dereference NULL or a deleted module, as the sweep waits for its listener mutex |
| Interleavings.DuplicateFreeRunsNeverFail | supercomponent/src/SuperComponent.cpp:341-395 | if no connection comes in under a text that is still registered, no interleaving fails and no module is ever dropped |
| Interleavings.ProperRunsNeverFail | supercomponent/src/SuperComponent.cpp:231-395 | duplicates or not: if the loop never sweeps between hasModule on the shutdown registry and the use of what it finds, no interleaving fails |
| Interleavings.SweptWindowIsDropped | libopendavinci/src/core/dmcp/connection/ModuleConnection.cpp:70-74 | a sweep between that check and that use is only possible if the connection's own module has been dropped |
| Interleavings.GuardsHoldInEveryInterleaving | supercomponent/src/SuperComponent.cpp:341-395 | in every interleaving: a hasModule answer on the active registry still holds at the following getModule, which inserts nothing; a module in use is not deleted; a module on its way between the registries is in neither and not freed; the same on the shutdown registry except for the swept lookups of dropped connections |
| Interleavings.QuietStatesAreAtomic | supercomponent/src/SuperComponent.cpp:341-395 | in every interleaving the registries between callbacks are exactly those of an atomic run |
| Interleavings.LostLookupFailsIffSwept | supercomponent/src/SuperComponent.cpp:381-389 | whatever else runs in between: a lost connection that found its text in the shutdown registry dereferences NULL or a deleted module if and only if the loop sweeps before the use, and NULL exactly if it sweeps before getModule |
| Interleavings.OwnLookupIsNotSwept | libopendavinci/src/core/dmcp/connection/ModuleConnection.cpp:70-74 | if that entry is the connection's own module, the loop does not sweep at all until the callback goes on |
| Interleavings.DroppedConnectionFails | supercomponent/src/SuperComponent.cpp:341-395 | a run from the start that fails: a module and a duplicate of it connect, the first one exits, the duplicate is lost, the loop sweeps before its lookup; the lookup yields NULL, and its use, like the next sweep, fails |
| Connections.DistinctTextsAreSafe | supercomponent/src/SuperComponent.cpp:341-395 | with callbacks of any connections overlapping, and with their own onNewModule: in every run in which no connection comes in while another one of its text listens, nothing dereferences NULL or a deleted module, each module is deleted at most once, and the module of a listening connection is always in exactly one place |
| Connections.ConnectIsSafeIff | supercomponent/src/SuperComponent.cpp:341-350 | the exact condition: when a connection comes in, a callback can come to use NULL without any further connection if and only if another one of the same text is listening |
| ListenerLocks.TurnsAreInterleaved | supercomponent/src/ConnectedModules.cpp:154-166 | with the registry locked and the listener mutexes taken one after the other, every run of the threads is an interleaving of LockSections with the sweep at its end, and what is deleted since the lock is exactly the entries behind the loop |
| ListenerLocks.EntersIff | supercomponent/src/SuperComponent.cpp:341-395 | a section of a callback takes the mutex of a registry if and only if it reads or changes that registry |
| ListenerLocks.OwnModuleNeverFails | libopendavinci/src/core/dmcp/connection/ModuleConnection.cpp:184-277 | a callback that uses the module of its own connection never finds it deleted, during sweeps and while closing down |
| ListenerLocks.OnlyDroppedFail | supercomponent/src/SuperComponent.cpp:231-395 | until the loop has ended, only the last use of a lost connection fails, and only if its module has been dropped |
| ListenerLocks.LoopFailsAtDropped | supercomponent/src/ConnectedModules.cpp:161-163 | a sweep meets NULL only where such a connection has inserted it |
| ListenerLocks.DeadlockIff | supercomponent/src/ConnectedModules.cpp:154-166 | the loop holds a registry and has still to delete a module whose own connection is calling: neither gets past the other, whatever any thread does, if and only if that callback still has to enter this registry; this holds for the sweep and for closing down |
| ListenerLocks.NormalEndMayDeadlock | supercomponent/src/SuperComponent.cpp:366-391 | a run from the start that deadlocks: a module connects, reports its exit code and closes its connection, and the loop starts to sweep just before the callback looks into the shutdown registry |
| ListenerLocks.CloseDownMayDeadlock | supercomponent/src/SuperComponent.cpp:334-374 | another one: the loop ends and closes down just when a registered module reports its exit code |
| StringOrder.LessIsTotal | libopendavinci/src/core/data/dmcp/ModuleDescriptorComparator.cpp:30-32 | the comparison of descriptor texts orders any two different ones |
| StringOrder.LessIff | libopendavinci/src/core/data/dmcp/ModuleDescriptorComparator.cpp:30-32 | a text comes first if it is the beginning of the other one, or has the smaller character where they differ first |
| StringOrder.SortedKeysAscend | supercomponent/src/ConnectedModules.cpp:69-71 | iterating a registry visits its keys in ascending order |
| StringOrder.AscendingIsUnique | supercomponent/src/ConnectedModules.cpp:43-71 | two ascending enumerations of one key set are equal: a map does not remember how it was filled |
| ConnectedModules.ConnectedModules.AddModule | supercomponent/src/ConnectedModules.cpp:43-46 | assignment through the subscript: the new pointer, the old descriptor object if the key was there |
| ConnectedModules.ConnectedModules.GetModule | supercomponent/src/ConnectedModules.cpp:48-51 | the lookup, which inserts NULL for a missing descriptor |
| ConnectedModules.ConnectedModules.RemoveModule | supercomponent/src/ConnectedModules.cpp:53-56 | exactly this key is erased |
| ConnectedModules.ConnectedModules.HasModule | supercomponent/src/ConnectedModules.cpp:58-61 | true if and only if the descriptor is registered |
| ConnectedModules.SameTextIff | libopendavinci/src/core/data/dmcp/ModuleDescriptor.cpp:87-92 | descriptors whose names hold no opening bracket, identifiers no closing one and versions no at sign have the same text if and only if they are equal |
| ConnectedModules.MistakenForEachOther | libopendavinci/src/core/data/dmcp/ModuleDescriptor.cpp:87-92 | an instance of two different descriptors with one text |
| ConnectedModules.ConnectedModules.Pulse | supercomponent/src/ConnectedModules.cpp:63-72 | the message goes to every registered key, in order |
| ConnectedModules.ConnectedModules.PulseShift | supercomponent/src/ConnectedModules.cpp:74-93 | the same with a shifted time for each module, counter and product wrapping at 32 bits |
| ConnectedModules.ConnectedModules.PulseAck | supercomponent/src/ConnectedModules.cpp:95-119 | the message goes to exactly the keys whose lower-cased name is not ignored, in order |
| ConnectedModules.ConnectedModules.PulseAckContainers | supercomponent/src/ConnectedModules.cpp:121-152 | the same, and the result holds every container of every answer, each behind those of the modules before it, and nothing else |
| ConnectedModules.ConnectedModules.DeleteAllModules | supercomponent/src/ConnectedModules.cpp:154-166 | all modules are deleted as Lifecycle.Deleted says, none is listened to any longer, and the registry is empty |
| ConnectedModules.ReachesEachOnce | supercomponent/src/ConnectedModules.cpp:104-149 | a pulse with acknowledgements reaches every connected, not ignored module exactly once and no other, in ascending order |
| ConnectedModules.ReachesAllOnce | supercomponent/src/ConnectedModules.cpp:63-93 | a pulse without acknowledgements reaches every connected module exactly once, shifted or not |
| ConnectedModules.ShiftedTimeIff | supercomponent/src/ConnectedModules.cpp:80-92 | the i-th module is told base time plus i times the shift if and only if the microseconds of both fit in 31 bits |
| ConnectedModules.OrderOfConnectionIsForgotten | supercomponent/src/ConnectedModules.cpp:43-71 | modules with distinct texts may connect in any order: the registry, hence every pulse, is the same |
| TimeStamps.Add | libopendavinci/src/core/data/TimeStamp.cpp:151-161 | the carrying loop of operator+ computes the reduced sum |
| TimeStamps.PlusMicroseconds | libopendavinci/src/core/data/TimeStamp.cpp:151-161 | adding microseconds is exact while they fit in 31 bits; the result is normalised except that a full second stays as 1000000 microseconds |
| TimeStamps.Uint64Difference | supercomponent/src/SuperComponent.cpp:245-311 | storing a negative wait in the unsigned 64-bit field and subtracting it again is exact |
| TimeStamps.WidthsOfIntegers | supercomponent/src/SuperComponent.cpp:212-311 | storing in a 32-bit or 64-bit field keeps the number modulo 2^32 or 2^64 and brings it into the range of the type |
| Schedule.PaceFollowsGrid | supercomponent/src/SuperComponent.cpp:217-311 | after any cycles the unsigned field holds the time left to the next grid point, modulo 2^64 |
| Schedule.OnTheGrid | supercomponent/src/SuperComponent.cpp:245-311 | start of a cycle plus its waiting time is the next grid point, and the consumption is how late it started |
| Schedule.PacingDoesNotDrift | supercomponent/src/SuperComponent.cpp:217-311 | from any cycle a on, cycle k ends its wait exactly k + 1 - a slices after the point due at a, until a cycle starts more than a second late |
| Schedule.LateCycleStartsAnew | supercomponent/src/SuperComponent.cpp:307-311 | a cycle more than a second late waits zero and starts the grid anew; any other waits the slice minus its lag |
| Schedule.LagOfNextCycle | supercomponent/src/SuperComponent.cpp:307-320 | with exact sleeps the next lag is the work plus what the lag exceeded its slice, unless the grid started anew |
| Schedule.LagIsWork | supercomponent/src/SuperComponent.cpp:307-320 | while the work fits into the slices every cycle starts late by exactly the work of the previous one |
| Schedule.CumulatedIsSlice | supercomponent/src/SuperComponent.cpp:304-305 | the k-th cycle sends k nominal slices modulo one second |
| Schedule.SliceIsMultipleIff | supercomponent/src/SuperComponent.cpp:212-305 | all slices sent are multiples of the nominal one if and only if it divides a second or is whole seconds |
| Schedule.SlicePeriod | supercomponent/src/SuperComponent.cpp:212-305 | if the slice divides a second, two cycles send the same slice if and only if they are a multiple of second/slice apart |
| SuperComponents.SuperComponent.OnNewModule | supercomponent/src/SuperComponent.cpp:341-354 | creates and listens to a module, is the atomic NewModule step, and registers the descriptor under its own text unless that text is taken |
| SuperComponents.SuperComponent.HandleChangeState | supercomponent/src/SuperComponent.cpp:356-361 | sets the state of exactly the registered module and is the atomic ChangeState step |
| SuperComponents.SuperComponent.HandleExitCode | supercomponent/src/SuperComponent.cpp:363-372 | marks exactly the registered module, is the atomic ExitCode step and unregisters exactly this descriptor |
| SuperComponents.SuperComponent.HandleConnectionLost | supercomponent/src/SuperComponent.cpp:379-395 | is the atomic ConnectionLost step, unregisters exactly this descriptor and reports exactly the modules shut down without an exit code |
| SuperComponents.SuperComponent.Dispatch | supercomponent/src/SuperComponent.cpp:341-395 | every callback is the atomic event of its kind, and exactly an exit code marks, and a change of state sets, the module registered under its descriptor, and no other |
| SuperComponents.SuperComponent.DeleteShutdownModules | supercomponent/src/SuperComponent.cpp:231 | is the atomic Sweep step |
| SuperComponents.SuperComponent.CloseDown | supercomponent/src/SuperComponent.cpp:334 | is the atomic CloseDown step |
| SuperComponents.SuperComponent.PulseModules | supercomponent/src/SuperComponent.cpp:257-275 | each managed level without relaying sends what SentBy says |
| SuperComponents.SuperComponent.TakeTime | supercomponent/src/SuperComponent.cpp:244-311 | the timing arithmetic of a cycle, with its unsigned field, is Schedule.Waiting and Schedule.Next |
| SuperComponents.SuperComponent.PulseAndWait | supercomponent/src/SuperComponent.cpp:237-321 | the managed part of a cycle produces the record that pace and pending containers determine |
| SuperComponents.SuperComponent.RunCycle | supercomponent/src/SuperComponent.cpp:218-321 | one whole cycle: callbacks, sweep, pulse, relay, pacing, with its record and its effect on registries and history |
| SuperComponents.SuperComponent.Loop | supercomponent/src/SuperComponent.cpp:212-322 | for any environment the trace of the loop follows the schedule and the relay, and every cycle pulses exactly the descriptors that the callbacks so far leave registered, which are the active ones of a run of atomic events |
| SuperComponents.SuperComponent.Body | supercomponent/src/SuperComponent.cpp:211-339 | the same for the whole body; the history grows by exactly the callbacks, one sweep a cycle and one close-down |
| SuperComponents.SuperComponent.Destroy | supercomponent/src/ConnectedModules.cpp:39-41 | after the destructors every module ever created was freed once, except the dropped ones |
| SuperComponents.EveryModuleIsPulsedOnce | supercomponent/src/SuperComponent.cpp:237-302 | every cycle of a managed level pulses each registered module exactly once and no other, in ascending order, except that the three levels that wait for acknowledgements skip the names to ignore; without a managed level it pulses none |
| SuperComponents.RegisteredIff | supercomponent/src/SuperComponent.cpp:341-395 | after any callbacks a text is registered if and only if it was at the beginning or came in, and has not exited or been lost since |
| SuperComponents.RegisteredAs | supercomponent/src/SuperComponent.cpp:341-354 | and its descriptor is the one it had then: coming in again while it is registered changes nothing |
| SuperComponents.ShutDownModulesAreDeleted | supercomponent/src/SuperComponent.cpp:231 | in every cycle of every run, between its first callbacks and its pulse, all modules that have been shut down are deleted, each once |
| SuperComponents.CyclesKeepNamed | supercomponent/src/SuperComponent.cpp:341-395 | whatever callbacks come, every module is registered under the text of its own descriptor |
| SuperComponents.ExcludedGetNoPulse | supercomponent/src/SuperComponent.cpp:184-302 | in every run of a level that waits for acknowledgements and for every exclude value: a registered module gets no pulse if and only if the first word of the value holds a comma and one of its pieces is the name of its descriptor in any case, and one pulse otherwise |
| SuperComponents.ListedGetNoPulse | supercomponent/src/SuperComponent.cpp:184-302 | with names joined by commas exactly the registered modules listed get no pulse if there are two names or more; a single name excludes none |
| SuperComponents.TimesOfTrace | supercomponent/src/SuperComponent.cpp:254-262 | every module is told the time of the pulse; with shifted pulses the i-th one i shifts more |
| SuperComponents.ContainersArriveInTheNextCycle | supercomponent/src/SuperComponent.cpp:286-302 | in the two simulation levels cycle k sends each eligible module, and the conference, all containers the eligible modules answered in cycle k - 1, each behind those of the modules before it, and no others |
| SuperComponents.NothingIsRelayedElsewhere | supercomponent/src/SuperComponent.cpp:257-275 | in every other level a cycle sends no container to a module or to the conference, and takes none |
| SuperComponents.ConferenceSeesAllButTheLastCycle | supercomponent/src/SuperComponent.cpp:289-301 | the conference stream of n cycles holds every container answered in cycles 1 to n - 1 at its place, in the order of cycles, modules and answers, and no others |
| SuperComponents.SlicesOfTrace | supercomponent/src/SuperComponent.cpp:255-305 | every message of the k-th cycle of any run carries k nominal slices modulo 1000000 microseconds |
| SuperComponents.SleepsDoNotDrift | supercomponent/src/SuperComponent.cpp:307-320 | in any run of a real-time level, start plus sleep of cycle k is the grid point k + 1 - a slices after the one due at a |
| SuperComponents.SleepsUntilTheNextSlice | supercomponent/src/SuperComponent.cpp:241-320 | in a real-time level, while no cycle starts more than a second after its time, cycle k sleeps until k + 1 slices after the start; the first that does not at all |
| SuperComponents.SleepsOutsideRealTime | supercomponent/src/SuperComponent.cpp:233-236 | a cycle sleeps two seconds without a managed level, and a millisecond in the simulation |
| LockStep.Sender.Iterate | supercomponent/testsuites/ManagedLevelTestSuite.h:131-142 | sends the counter and starts over after 10000 |
| LockStep.Receiver.Iterate | supercomponent/testsuites/ManagedLevelTestSuite.h:180-194 | one turn of the receiver is the function Receive, with 32-bit numbers |
| LockStep.Run | supercomponent/testsuites/ManagedLevelTestSuite.h:124-198 | the composition, pulsed in either order, shows the differences of ReceiverAfter |
| LockStep.ReadsEveryValueOnce | supercomponent/testsuites/ManagedLevelTestSuite.h:124-194 | for any number of cycles, in either order of the modules and whichever connects first, the receiver reads every value the sender sends from then on exactly once and in order, after nothing but zeros |
| LockStep.FirstRound | supercomponent/testsuites/ManagedLevelTestSuite.h:130-194 | both connected from the start: after n cycles, up to 10001, a receiver pulsed after the sender has added up 0 to n - 1, one pulsed before it 0 to n - 2, with equal sums |
| LockStep.ReadFromIs | supercomponent/testsuites/ManagedLevelTestSuite.h:173-194 | the closed form of all fields of the receiver after any number of values, with every 32-bit wrap-around and the turns it skips at a sum of zero |
| LockStep.DifferenceIsZeroIff | supercomponent/testsuites/ManagedLevelTestSuite.h:180-194 | in all runs, overflowed or not: unless the 32-bit sum is zero the difference is zero if and only if values read and numbers counted have the same sum modulo 2^32 |
| LockStep.DifferenceIff | supercomponent/testsuites/ManagedLevelTestSuite.h:130-194 | for a receiver connected no later than the sender, while the sum of the values fits in 32 bits, the difference is 10001 for each restart, summed over the values, and zero exactly for the first 10001 values |
| LockStep.LateReceiver | supercomponent/testsuites/ManagedLevelTestSuite.h:130-194 | whichever connects first, while the sum fits in 32 bits, the difference after n values is that less n times one below the first value read; before the first restart it is zero if and only if the receiver is in step or one cycle late (its first value is 0 or 1), or has read nothing |
| LockStep.SumOfBlocks | supercomponent/testsuites/ManagedLevelTestSuite.h:133-142 | closed forms of the sum of the values and of the restarts, block by block of 10001 values |
| StringToolbox.EqualsIgnoreCase | include/core/StringToolbox.h:64-74 | true if and only if the lower-cased texts are equal |
| StringToolbox.CapitalsAreLowered | include/core/StringToolbox.h:69 | lower-casing changes exactly the 26 capital letters |
| StringToolbox.TrimInPlace | include/core/StringToolbox.h:43-55 | the erasing steps leave Trim of the text |
| StringToolbox.TrimSplits | include/core/StringToolbox.h:43-55 | trimming removes blanks only, from both ends, and all of them |
| StringToolbox.TrimIsUnique | include/core/StringToolbox.h:43-55 | the trimmed text is the only one with no blank at its ends that blanks on both sides extend to the text |
| StringToolbox.Split | include/core/StringToolbox.h:83-98 | the loop ends and returns SplitOf: the non-empty pieces in order, or nothing when the delimiter does not occur |
| StringToolbox.TokensAreThePieces | include/core/StringToolbox.h:83-98 | what the loop still finds from any position are the non-empty pieces of the rest |
| StringToolbox.JoinOfPieces | include/core/StringToolbox.h:83-98 | joining the pieces gives the text back, so the pieces are the naive split |
| StringToolbox.SplitUndoesJoin | include/core/StringToolbox.h:83-98 | split inverts join on two or more non-empty delimiter-free tokens and loses a single one |
| StringToolbox.LowerCommutesWithPieces | supercomponent/src/SuperComponent.cpp:186-188 | lower-casing before splitting is splitting before lower-casing |
| KeyValueConfigurations.ReadingPositions | libopendavinci/src/core/base/KeyValueConfiguration.cpp:43-76 | comparing the positions of comment sign and delimiter says the same as cutting the comment off first |
| KeyValueConfigurations.CutLine | libopendavinci/src/core/base/KeyValueConfiguration.cpp:42-76 | the guards on positions and lengths find the two sides of a line, or skip it |
| KeyValueConfigurations.ParseLine | libopendavinci/src/core/base/KeyValueConfiguration.cpp:39-90 | one turn of the reading loop yields EntryOf the line |
| KeyValueConfigurations.DocumentedLine | libopendavinci/include/core/base/KeyValueConfiguration.h:45-49 | the documented format, with blanks around key and value and a comment behind, is read as lower-cased key and value |
| KeyValueConfigurations.ReadTextKeepsWellFormed | libopendavinci/src/core/base/KeyValueConfiguration.cpp:37-94 | whatever is read, keys are lower case and trimmed without delimiter, values trimmed and not empty |
| KeyValueConfigurations.PrintThenRead | libopendavinci/src/core/base/KeyValueConfiguration.cpp:144-152 | printing a configuration and reading it gives it back; read into another one it overrides equal keys |
| KeyValueConfigurations.PrintedText | libopendavinci/src/core/base/KeyValueConfiguration.cpp:144-152 | the printed text line by line: key, equals sign and value of each entry in ascending order |
| KeyValueConfigurations.WordBetweenBlanks | libopendavinci/include/core/base/KeyValueConfiguration.h:112-115 | extracting a value skips white space of any kind and stops at the next one |
| KeyValueConfigurations.SectionIsPrinted | libopendavinci/src/core/base/KeyValueConfiguration.cpp:120-142 | printing the selected entries and reading them back selects exactly those whose key contains the section |
| KeyValueConfigurations.KeyValueConfiguration.Read | libopendavinci/src/core/base/KeyValueConfiguration.cpp:37-94 | reading text line by line, later lines overriding earlier ones |
| KeyValueConfigurations.KeyValueConfiguration.Print | libopendavinci/src/core/base/KeyValueConfiguration.cpp:144-152 | prints the entries in key order |
| KeyValueConfigurations.KeyValueConfiguration.GetSubsetForSection | libopendavinci/src/core/base/KeyValueConfiguration.cpp:120-142 | a fresh configuration with exactly the entries whose key contains the lower-cased section |
| KeyValueConfigurations.KeyValueConfiguration.GetListOfKeys | libopendavinci/src/core/base/KeyValueConfiguration.cpp:154-163 | the keys in ascending order |
| GlobalConfigurations.GlobalConfigurationProvider.GetConfiguration | supercomponent/src/GlobalConfigurationProvider.cpp:55-106 | sections, rewriting, printing and merging through text streams give the configuration GivenKeys describes, the whole one for the monitor and the cockpit |
| GlobalConfigurations.GlobalConfigurationProvider.ConfigurationOfIdentifier | supercomponent/src/GlobalConfigurationProvider.cpp:69-93 | the entries of the identifier, rewritten and read back |
| GlobalConfigurations.PrintRewritten | supercomponent/src/GlobalConfigurationProvider.cpp:76-89 | the loop over the keys prints every rewritten entry |
| GlobalConfigurations.ReadRewritten | supercomponent/src/GlobalConfigurationProvider.cpp:82-92 | reading the rewritten lines adds exactly the rewritten entries that have a word as value |
| GlobalConfigurations.KeysAreLongEnough | supercomponent/src/GlobalConfigurationProvider.cpp:86 | the substring positions are inside the key even when the search fails and the position wraps around |
| GlobalConfigurations.GivenKeys | supercomponent/src/GlobalConfigurationProvider.cpp:58-105 | exactly the keys and values a module is given, for every configuration and every name: everything for the monitor and the cockpit, otherwise the global keys, those of the name, and the rewritten ones of the identifier, which hide the others |
| GlobalConfigurations.StrangeKeyIff | supercomponent/src/GlobalConfigurationProvider.cpp:58-67 | a key outside the global section and every section of the module is given if and only if the name is Monitor or Cockpit |
| GlobalConfigurations.RewriteIsOwnIff | supercomponent/src/GlobalConfigurationProvider.cpp:80-86 | a rewritten key is one of the module's if and only if the key is, or is one with a dot of the prefix expanded |
| GlobalConfigurations.OnlyOwnKeysIff | supercomponent/src/GlobalConfigurationProvider.cpp:62-105 | a module with colon-free name and lower-case identifier is given only keys starting with "global." or its name if and only if the configuration is separated |
| GlobalConfigurations.AnotherModulesKey | libopendavinci/src/core/base/KeyValueConfiguration.cpp:131-135 | the promise to select keys starting with the section fails: the camera is given "mycamera.id" |
| GlobalConfigurations.RewriteOfOwnSection | supercomponent/src/GlobalConfigurationProvider.cpp:86 | in keys of the module's own section exactly the identifier is taken out, so the rewriting is injective there |
| GlobalConfigurations.AnchoredConfiguration | supercomponent/src/GlobalConfigurationProvider.cpp:62-105 | if sections stand only at the start of keys, the result is the global keys, the name keys and the identifier keys without the identifier; the identifier wins, cut after its first word |
| GlobalConfigurations.CollideIff | supercomponent/src/GlobalConfigurationProvider.cpp:80-86 | two different keys with the identifier in them are rewritten alike if and only if one is the other with the identifier moved from its first place to a later dot, which moves to that place |
| GlobalConfigurations.StayApartIff | supercomponent/src/GlobalConfigurationProvider.cpp:69-93 | for every configuration that was read, every name and identifier: no two entries of the identifier become one key if and only if no two of their keys are so related |
| GlobalConfigurations.TwoEntriesOneKey | supercomponent/src/GlobalConfigurationProvider.cpp:86 | an instance for any two names: two different keys in one section that become one key |
| GlobalConfigurations.CapitalIdentifier | supercomponent/src/GlobalConfigurationProvider.cpp:76-88 | an identifier with a capital letter is never found: nothing is taken out and the end of the key is repeated |
| SuperComponentOptions.ParseLevel | supercomponent/src/SuperComponent.cpp:136-165 | the level is the one whose name the word is in any case; a word that names none changes nothing |
| SuperComponentOptions.Options.Parse | supercomponent/src/SuperComponent.cpp:123-196 | level and exclusions after the command line, by the words and the key of the program: exclusions only for levels that wait for acknowledgements |
| SuperComponentOptions.SkippedIff | supercomponent/src/SuperComponent.cpp:184-189 | a module is skipped if and only if the first word of the value holds a comma and one of its pieces is the name in any case |
| SuperComponentOptions.ListedNamesAreSkipped | supercomponent/src/SuperComponent.cpp:184-189 | for names joined by commas exactly the listed modules are skipped if there are two or more, and none if there is one |
| SuperComponentOptions.BlankEndsTheList | supercomponent/src/SuperComponent.cpp:185-188 | a blank after a comma ends the list of exclusions |
| CxxTestGen.Scanner.CloseSuite | _buildtools/cxxtest/cxxtestgen.py:331-347 | closing drops an empty suite, aborts on an unpaired one, remembers any other |
| CxxTestGen.Scanner.StartSuite | _buildtools/cxxtest/cxxtestgen.py:255-268 | closes the current suite, then starts an empty one |
| CxxTestGen.Scanner.LineBelongsToSuite | _buildtools/cxxtest/cxxtestgen.py:212-224 | the block automaton of inline suites |
| CxxTestGen.Scanner.ScanLineInsideSuite | _buildtools/cxxtest/cxxtestgen.py:204-210 | test, createSuite() and destroySuite() of a line that belongs to the suite |
| CxxTestGen.Scanner.ScanInputLine | _buildtools/cxxtest/cxxtestgen.py:193-202 | starts first, then the line inside the suite |
| CxxTestGen.Scanner.ScanInputFile | _buildtools/cxxtest/cxxtestgen.py:179-191 | all lines of a file, then the end of its last suite |
| CxxTestGen.Scanner.ScanInputFiles | _buildtools/cxxtest/cxxtestgen.py:171-177 | all files; aborts without tests unless only the root is written |
| CxxTestGen.BelongsIs | _buildtools/cxxtest/cxxtestgen.py:212-224 | one line of the block automaton: a line is scanned, added to the code and opens or closes the block as the position in the file and the lines before it say, across suites and files |
| CxxTestGen.ScanLinesIs | _buildtools/cxxtest/cxxtestgen.py:193-202 | for any lines, with inline suites or not: after any number of them the scanner has aborted if and only if a suite so far is not acceptable, and otherwise holds the closed segments, the segment scanned so far and the block left open |
| CxxTestGen.ScanFileIff | _buildtools/cxxtest/cxxtestgen.py:179-191 | for any file: scanning aborts if and only if a suite declares twice or has tests and only one of create and destroy; otherwise the remembered suites are exactly the segments with tests, and the open block is handed on to the next file |
| CxxTestGen.ScanIff | _buildtools/cxxtest/cxxtestgen.py:171-177 | the same for all files, and for finding no tests |
| CxxTestGen.SuitesAreDeclared | _buildtools/cxxtest/cxxtestgen.py:226-347 | every remembered suite is declared by a line of its file: name, kind, file and line are those of that start, its code are exactly the lines inside blocks, and it has createSuite() and destroySuite() from scanned lines that declare them, if there are any |
| CxxTestGen.AbortNamesTheCulprit | _buildtools/cxxtest/cxxtestgen.py:306-347 | when scanning a file aborts, the error names what is wrong and where: the scanned line that declares again, or the one createSuite() or destroySuite() of a suite with tests that lacks the other |
| CxxTestGen.ScanAborts | _buildtools/cxxtest/cxxtestgen.py:171-191 | the error of a scan is that of the first file that is not acceptable, or that there are no tests |
| CxxTestGen.SuitesHoldTheFoundTests | _buildtools/cxxtest/cxxtestgen.py:193-300 | for any file: the tests of the remembered suites are exactly the scanned test lines, those in a plain suite or inside a block of an inline one, in order, each in the suite of the latest start |
| CxxTestGen.EachTestOnce | _buildtools/cxxtest/cxxtestgen.py:193-300 | each scanned test line is described exactly once and nothing else is |
| CxxTestGen.RememberedArePaired | _buildtools/cxxtest/cxxtestgen.py:340-352 | for any files, inline suites or not, a remembered suite has tests, and create if and only if destroy |
| CxxTestGen.Writer.WriteInclude | _buildtools/cxxtest/cxxtestgen.py:484-490 | a file is included unless it was the last one included |
| CxxTestGen.Writer.WriteTestDescriptions | _buildtools/cxxtest/cxxtestgen.py:518-521 | one description for every test of the suite, in order |
| CxxTestGen.Writer.WriteSuites | _buildtools/cxxtest/cxxtestgen.py:462-474 | the output for all suites, as SuitesStandInOrder and DefinitionsOfSuites describe it |
| CxxTestGen.TestsOfSuites | _buildtools/cxxtest/cxxtestgen.py:462-521 | the descriptions in the output are exactly the tests of the suites, in order |
| CxxTestGen.EverySuiteIsWritten | _buildtools/cxxtest/cxxtestgen.py:462-490 | the output describes every suite exactly once, in order, with its own file as the one included last, and dynamically with its create and destroy lines exactly if it declares them |
| CxxTestGen.SuitesStandInOrder | _buildtools/cxxtest/cxxtestgen.py:462-521 | the suites stand in the output one behind the other, each with its own file included last, its code if it is inline, a pointer or an object as it has createSuite() or not, its test list, its description and those of its tests |
| CxxTestGen.DefinitionsOfSuites | _buildtools/cxxtest/cxxtestgen.py:462-516 | beside the descriptions of tests the output holds exactly these definitions and the includes of changed files |
| CxxTestGen.EveryFoundTestIsWritten | _buildtools/cxxtest/cxxtestgen.py:171-521 | from lines to output, for any files that do not abort: every scanned test line is written as exactly one description, in order, and no other |
| CxxTestGen.NoTestIsLostIff | _buildtools/cxxtest/cxxtestgen.py:171-521 | for any files that do not abort: every test line at or after a start is written if and only if no test line of an inline suite is outside a block or ends one, where a block left open counts as open in the next inline suite and file |
| CxxTestGen.InlineTestLost | _buildtools/cxxtest/cxxtestgen.py:291-300 | an instance of a lost test: the only test stands on the line that ends the only block of an inline suite |
| Kalman.GainSolves | examples/example4/Example4.cpp:192-202 | the gain times the inverted matrix is P times H transposed |
| Kalman.ShortUpdateIsJoseph | examples/example4/Example4.cpp:192-211 | whenever the inverted matrix is regular the short update equals the Joseph form |
| Kalman.InnovationIsRegular | examples/example4/Example4.cpp:193-199 | for every positive definite P and positive variance the inverted matrix has a positive determinant |
| Kalman.MeasurementHelps | examples/example4/Example4.cpp:192-211 | each posterior position variance is positive and strictly below both the prior one and the variance of the measurement |
| Kalman.DecoupledPositiveIff | examples/example4/Example4.cpp:80-143 | a covariance with equal axis blocks and no cross terms is positive definite if and only if its block is |
| Kalman.DecoupledPosterior | examples/example4/Example4.cpp:192-211 | a measurement keeps the axes decoupled, with these blocks |
| Kalman.DecoupledPredicted | examples/example4/Example4.cpp:228-230 | a prediction keeps the axes decoupled, with these blocks |
| Kalman.PassKeepsGood | examples/example4/Example4.cpp:192-230 | one pass keeps the covariance symmetric, positive definite and decoupled |
| Kalman.CovarianceStaysPositive | examples/example4/Example4.cpp:80-230 | for any number of passes with any positive variances the covariance stays so, and the next inversion is regular |
| Kalman.EveryPassIsSound | examples/example4/Example4.cpp:151-232 | in every run every pass inverts a regular matrix, equals the Joseph form and makes both position variances smaller than before and than that of its measurement, 1.0 in passes 74 to 84 and 0.01 in all others |
| Kalman.IdealClosedForm | examples/example4/Example4.cpp:151-166 | the ideal trajectory is the parabola of a throw at every step |
| Kalman.ThrowInNumbers | examples/example4/Example4.cpp:61-166 | the same in the numbers of the program |
| Kalman.MeasurementInNumbers | examples/example4/Example4.cpp:169-184 | what pass k is given in every run: the variance matrix 1.0 I in passes 74 to 84 and 0.01 I in all others, the ideal x, and the height of the throw or of the tree with the noise |
| Kalman.ModelInNumbers | examples/example4/Example4.cpp:80-143 | the initial estimate and covariance, and the next covariance block in the numbers of the program |
| Kalman.RecordedInNumbers | examples/example4/Example4.cpp:151-226 | what the six recorded vectors hold: ideal positions of the throw at slice i, the prediction for it, and the measurement of the slice before |
| Kalman.ModelIsIdeal | examples/example4/Example4.cpp:126-139 | A, B and u advance a state exactly as the ideal trajectory advances |
| Kalman.ErrorDynamics | examples/example4/Example4.cpp:204-221 | the next error is A ((I - K H) e - K w) with the disturbance w of the measurement |
| Kalman.UndisturbedIff | examples/example4/Example4.cpp:169-184 | a measurement has no disturbance if and only if it reports the true height |
| Kalman.NoDisturbanceNoNewError | examples/example4/Example4.cpp:204-221 | without disturbance the error obeys e' = A (I - K H) e, and zero stays zero |
| Kalman.TakeMeasurement | examples/example4/Example4.cpp:169-184 | measurement and variance, with the tree in front of the sensor between 0.7 and 0.8 |
| Kalman.ApplyFilter | examples/example4/Example4.cpp:191-231 | gain, correction and prediction of one pass |
| Kalman.Body | examples/example4/Example4.cpp:60-232 | the loop records ideal, measured and filtered positions of the run, and uses the variance matrix 1.0 I in exactly the passes 74 to 84, 0.01 I in the others |

## Left out

- SuperComponents.SuperComponent.Body: callbacks are atomic here and come between the steps of the loop; their interleaving inside callbacks is the subject of modules LockSections, Interleavings, Connections and ListenerLocks. The statistics container, console output, the connection and discovery servers and the pauses between sends are not modelled.
- SuperComponents.SuperComponent.Loop: the nominal slice is a given number of microseconds; computing it from the frequency in floating point is not modelled.
- Interleavings.RunActionsRefine: a text has at most one running callback here, so the theorems of Interleavings and ListenerLocks are about runs in which callbacks of one text do not overlap; ConnectIsSafeIff says what overlapping can do.
- Interleavings.OwnCallbackNeverFails: in such runs; a registered module's callback that overlaps with one of a duplicate can use NULL (ConnectIsSafeIff).
- Connections.DistinctTextsAreSafe: a sweep is one step that waits for the callbacks of the modules it deletes; that it can wait while it holds the registry is the subject of ListenerLocks.
- ListenerLocks.DeadlockIff: runs end when closing down has deleted the last module, where the program ends. Waiting for the acknowledgements of a pulse is not modelled.
- ConnectedModules.ConnectedModules.PulseAckContainers: a connection that breaks or times out is one that returns no containers; whether the message had been sent to it is not modelled, and neither are the sleeps between modules.
- ConnectedModules.ShiftedTimeIff: signed overflow is taken as two's complement, which C++ leaves undefined.
- Schedule.OnTheGrid: stamps lie within 2^52 microseconds of zero, which 32-bit seconds imply, and the cycles within 2^60 microseconds.
- LockStep.DifferenceIff: stated while the sum of the values read fits in 32 bits; ReadFromIs and DifferenceIsZeroIff hold without that, in terms of the turns in which the 32-bit sum is zero.
- LockStep.LateReceiver: within the same bound, on the sum of the values of the sender.
- LockStep.Run: the conference delivers a value at once to a connected receiver; sleeping and the console are left out.
- CxxTestGen.Scanner.ScanInputLine: lines come classified; the regular expressions, the flags for exceptions and the standard library, and the formatting of the output are not modelled.
- Kalman.Body: exact reals instead of single precision; the random numbers are parameters; the drawing is left out.
- KeyValueConfigurations.CutLine: lines are shorter than 2^31 characters, where the cast of their length is exact.
- StringToolbox.EqualsIgnoreCase: tolower in the C locale, on ASCII letters.
- Numbers in the configuration (shift, timeout, yield) and their defaults.
- Sockets, the discovery protocol, module connections, threads, and the serialiser.
- The selection of a section that removes the section name from the keys: the core does not use it.
- Client modules other than the sender and the receiver, the remaining examples and test suites, the vendored database headers, and the translation files.
