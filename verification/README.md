# A verified model of PRoot

PRoot gives a process another root file-system and bind mounts without privileges: it
traces every system call with ptrace and rewrites paths, registers and memory. This project
models the parts of it that carry state or arithmetic, and proves what they keep.

* `Interception` - the protocol between the event loop and a kernel that reports seccomp stops
  before or after syscall stops; `Chaining` - re-executed traps and the restored registers.
* `SeccompFilter` - lists of syscalls compiled to classic BPF, with an evaluator.
* `Loading`, `LoadScript`, `ScriptLayout`, `ScriptMemory`, `Startup`, `AuxVector` - ELF segments
  compiled to mappings, then to a load script of words, transferred below the stack pointer and
  interpreted by the loader in the memory that it fills. Segments follow "Program Header" and "Program Loading" of the System V gABI.
* `Paths`, `Bindings`, `Translation`, `Pivot`, `PivotResolution`, `CanonIdeal`, `Canon`,
  `CanonComplete` - the path name-space.
* `HeapEmulation`, `Netlink`, `NetlinkAttributes`, `NetlinkReplies`, `NetlinkQueue` - emulated
  kernel services; messages follow section 2.3.2 of RFC 3549.
* `RemoteString`, `RemoteArray`, `Shebang`, `Extensions` - lazy and cached structures against
  the simple ones they stand for.
* `Common`, `Sequences`, `Pages`, `WordBytes`, `Buffers` - shared vocabulary.

Code that updates things in place is a method or a class, proved equal to a function; what the
code promises is proved about that function. The kernel, the file-system and the handlers of
individual syscalls are parameters: every answer that they may give is quantified over.

`dafny verify dfyconfig.toml` checks everything.

## Where the code does not do what it seems to promise

The model follows the code. Each difference has its exact condition and, where that does not
name an input by itself, a lemma with one.

* The exit stage forced for fork-like syscalls is lost with the old stop order, exactly on the
  fast path of a filter that does not ask for it (`Interception.ForkEntryIff`,
  `Interception.OldOrderForkLosesExit`, `Interception.FirstForkLosesExit`).
* A handler that asks for the exit by `sysexit_pending` alone, as that of ioctl(FICLONE) does,
  is not honoured on the fast path (`Interception.StepKeepsInvIff`,
  `Interception.HalfAskedBreaks`, `Interception.FicloneIsHalfAsked`).
* `pivot_root(".", ".")` lists the old root at "/." (`Pivot.DotTrickExposesOldRoot`,
  `Pivot.OldRootListed`, `Pivot.OldRootHidden`).
* A trailing slash on put_old is kept in the binding of the old root: what was bound in the old
  root is not found again, and the substitution counts the slash
  (`PivotResolution.SlashedOldRoot`, `PivotResolution.SlashedResolutionIff`).
* A pivot makes the bindings that move read-write (`Pivot.ModeKeptIff`).
* Unmounting is not the inverse of mounting over an existing binding
  (`Pivot.UmountUndoesMountIff`, `Pivot.HiddenMountIsLost`).
* A path whose last name ends in a dot is chopped (`Canon.ChopFinalityIff`,
  `Canon.ChopFinalityEatsName`).
* Four links in a row are refused as a loop, though three links anywhere are not
  (`CanonIdeal.LinkRowIff`, `CanonComplete.ReachedComplete`).
* The number just past a table of syscalls is looked up in it (`SeccompFilter.TranslateSysnumIff`).
* The length of a filter and of its sections is kept in 16 bits (`SeccompFilter.SetSeccompFilters`).
* The loader adjusts at least one pair: behind an empty auxiliary vector, which the kernel does
  not build, it goes on up to the next AT_NULL (`AuxVector.StaysInsideIff`,
  `AuxVector.EmptyVectorOverrun`).
* A path that would be too long after translation is used untranslated
  (`Translation.TranslateIsGraftIff`).
* A segment whose file part ends with the file on a page boundary kills the process when there
  are bytes to clear (`Loading.SurvivesIff`).
* `clear()` inside one word writes the whole word (`Loading.ClearExactIff`); the loader never
  calls it so.
* A string of exactly `max_size` bytes without NUL before an unmapped page is EFAULT
  (`RemoteString.LastPageFaults`).
* After a removal the extension cache holds the last match where the list walk gives the first
  (`Extensions.RebuiltIsWalkIff`).

## Model

| member | source | states |
|---|---|---|
| `Interception.RunsAreFaithful` | proot/src/tracee/event.c:731-940 | Over every run of guest syscalls and both kernel stop orders, whatever the handlers do, as long as each step is benign: no assertion of the event loop fires, the detected order is the real one, and each finished traced syscall had one enter translation and, if its exit was requested, one exit translation before the next enter |
| `Interception.InitialInv` | proot/src/tracee/event.c:620-651 | A world that starts with an untraced or a traced tracee satisfies the protocol invariant |
| `Interception.IssueKeepsInv` | proot/src/tracee/event.c:836-940 | Issuing a syscall, with the stops that come first for each order, keeps the invariant if the step is benign; detection included |
| `Interception.ProceedKeepsInv` | proot/src/tracee/event.c:731-834 | The second stop of an entry, whichever it is, keeps the invariant if the step is benign: nothing is translated twice |
| `Interception.FinishKeepsInv` | proot/src/syscall/syscall.c:200-238 | The end of a syscall keeps the invariant: the exit stage runs exactly if it is owed, chained syscalls included |
| `Interception.EventKeepsInv` | proot/src/tracee/event.c:942-961 | A fork, exec or exit event in the middle of a syscall keeps the invariant when it keeps the owed exit |
| `Interception.StepKeepsInvIff` | proot/src/tracee/event.c:731-961 | A step of guest and kernel keeps the invariant if and only if it is benign: no handler on the fast path sets sysexit_pending alone, and no fork event comes where its default request drops an owed exit |
| `Interception.HalfAskedBreaks` | proot/src/tracee/event.c:920-938 | A handler that does set it alone on the fast path: with the old order the next enter stop fires the assertion of line 811, else the exit stop is taken for an entry and the syscall is translated twice |
| `Interception.FicloneIsHalfAsked` | proot/src/syscall/enter.c:2678-2684 | The handler of ioctl(FICLONE) does: from an initial world, its first syscall fires the assertion |
| `Interception.StatusKeptIff` | proot/src/tracee/event.c:920-938 | On the fast path, for either order, the status of the entry, the error of the handler or 1, is kept exactly if the exit will be seen, if and only if the handler did not ask by halves; and the enter stop that follows is to be skipped exactly with the old order, when the exit will be seen and the syscall was not cancelled |
| `Interception.PlayKeepsInv` | proot/src/tracee/event.c:620-1052 | Every playable sequence of choices of guest and kernel keeps the invariant |
| `Interception.ForkKeepsInvIff` | proot/src/tracee/event.c:640-651 | In a reachable world a fork event is survived if and only if no exit is owed or one of the two flags that force PTRACE_SYSCALL is set |
| `Interception.ForkEntryIff` | proot/src/syscall/enter.c:109-123 | Forcing the exit stage of a fork-like syscall of an accelerated tracee: when the syscall runs, its fork event keeps the owed exit if and only if the stop order is the new one, the filter asked for the exit itself, or the tracee was under PTRACE_SYSCALL |
| `Interception.ForkSurvivedIff` | proot/src/tracee/event.c:942-951 | The fork event that follows keeps the invariant in exactly these cases |
| `Interception.OldOrderForkLosesExit` | proot/src/tracee/event.c:742-815 | In the other case, the old order on the fast path: the enter stop after the handled seccomp stop clears the pending flag, the exit stage is lost, and whatever traced syscall comes next fires the assertion of line 871 |
| `Interception.FirstForkLosesExit` | proot/src/tracee/event.c:742-815 | So does the first fork of an accelerated tracee |
| `Interception.TraceeRecord.TranslateSyscall` | proot/src/syscall/syscall.c:117-238 | In-place update equals the specification of both stages |
| `Interception.TraceeRecord.TranslateEnterStage` | proot/src/syscall/syscall.c:130-199 | The enter stage: translation unless chained, status from its outcome, status reset when the exit will not be seen |
| `Interception.TraceeRecord.CallEnterHandlers` | proot/src/syscall/syscall.c:150-163 | The handlers of a syscall of the guest, and none for a chained one |
| `Interception.TraceeRecord.TranslateExitStage` | proot/src/syscall/syscall.c:200-238 | The exit stage: translation unless chained, status reset, next chained syscall |
| `Interception.ChainEndsIff` | proot/src/syscall/chain.c:103-153 | A chain is over right after one exit stage more than syscalls were registered, those registered on the way included, and not before; until then every exit is seen, and no exit handler of the guest runs |
| `Interception.ChainBegins` | proot/src/syscall/syscall.c:236-238 | At the exit of a syscall of the guest whose handlers register n syscalls, the first of them is next and n - 1 are left, under PTRACE_SYSCALL; without any there is no chain |
| `Interception.DisableHonoured` | proot/src/ptrace/ptrace.c:174-178 | At the exit of a syscall, the acceleration is turned off and the tracee put under PTRACE_SYSCALL if and only if the syscall is the guest's and its handler asks for that |
| `Interception.DisabledForGood` | proot/src/tracee/event.c:817-834 | From then on, over every playable run, it stays off, and every syscall, listed by the filter or not, goes through one enter and one exit stage |
| `Interception.NextExitIsSeen` | proot/src/syscall/exit.c:595-645 | A handler that sets sysexit_pending and restart_how at an exit sees the next syscall that ends at its entry and at its exit, over every playable run |
| `Interception.TraceeRecord.ChooseDefaultRestart` | proot/src/tracee/event.c:640-651 | The default restart mode, from the pending flag and the seccomp state |
| `Interception.TraceeRecord.HandleSyscallStop` | proot/src/tracee/event.c:731-834 | The syscall stop, with its assertions as the result `ok` |
| `Interception.TraceeRecord.DetectOrder` | proot/src/tracee/event.c:848-854 | The first seccomp stop fixes the order |
| `Interception.TraceeRecord.HandleSeccompStop` | proot/src/tracee/event.c:836-940 | The seccomp stop, with its assertions as the result `ok` |
| `Interception.TraceeRecord.HandleReport` | proot/src/tracee/event.c:856-939 | The seccomp stop once the order is known |
| `Interception.TraceeRecord.HandleEntryNow` | proot/src/tracee/event.c:920-939 | The fast path: the enter stage is translated at the seccomp stop |
| `Interception.TraceeRecord.RestartTracee` | proot/src/tracee/event.c:1084-1104 | A restart moves the chosen mode to the last mode and clears it |
| `Chaining.ChainIsFaithful` | proot/src/syscall/chain.c:103-153 | On x86 and ARM, any queue of chained syscalls, with those that extensions register at the head or at the tail on the way, is issued once, in order, without enter translation; then the instruction pointer is past the trap, arguments and stack pointer are the original ones, and only the result differs: the last one, or the one forced last, before or on the way |
| `Chaining.HandlersAreHonoured` | proot/src/syscall/chain.c:43-163 | Whatever the handlers register and force, in whatever order: the calls put at the head come first, the last of them before the others, then the rest in order, and the guest sees the result forced last, or else that of the last call |
| `Chaining.ChainRuns` | proot/src/syscall/syscall.c:200-238 | The same from any point of a chain, by induction over its rounds |
| `Chaining.RoundIs` | proot/src/syscall/syscall.c:153-163 | One more execution of the trap issues exactly the forged call and prepares the next, or ends the chain |
| `Chaining.ChainStarts` | proot/src/syscall/syscall.c:200-241 | The exit stage of the guest syscall prepares the first chained one |
| `Chaining.OrdinaryExit` | proot/src/tracee/reg.c:291-327 | Without a chain: if a register was changed since the entry, the guest gets its number, its arguments and its stack pointer back, but for what holds the result, with the result and the instruction pointer of the kernel; else nothing is touched |
| `Chaining.ForgedIs` | proot/src/syscall/chain.c:131-149 | The forged registers make the trap read exactly the queued number and arguments, though on ARM the first argument is the result register and on x86 the number is |
| `Chaining.RestartOriginal` | proot/src/syscall/chain.c:170-180 | Restarting the original syscall issues what the guest asked for and hands over its answer |
| `Chaining.Tracee.PokeReg` | proot/src/tracee/reg.c:217-229 | A register changes only if its value does, and then the bank is marked as changed |
| `Chaining.PokeIs` | proot/src/tracee/reg.c:217-229 | A poked register reads as poked, no other one changes but its alias on ARM, and the bank is marked exactly if the value is another |
| `Chaining.Tracee.PushRegs` | proot/src/tracee/reg.c:291-375 | At the end of a syscall all but the result is restored from the original bank |
| `Chaining.Tracee.RegisterChained` | proot/src/syscall/chain.c:43-76 | In-place update of the queue equals the specification that HandlersAreHonoured is about |
| `Chaining.Tracee.Perform` | proot/src/syscall/chain.c:43-163 | Any registrations and forced results in turn, in place, are those that the chain lemmas are about |
| `Chaining.Tracee.ChainNext` | proot/src/syscall/chain.c:103-153 | In-place update equals the specification |
| `Chaining.Tracee.Exit` | proot/src/syscall/syscall.c:200-241 | The exit stage and the push of registers equal the specification, and without a chain the guest resumes as OrdinaryExit says |
| `SeccompFilter.FilterAgreesWithTracer` | proot/src/syscall/seccomp.c:544-609 | The filter built from all the lists, in any order of the merged list, kills unhandled architectures, traces a listed syscall with exactly the flags that the tracer recomputes from the lists, and allows every other |
| `SeccompFilter.FilterIsFaithful` | proot/src/syscall/seccomp.c:277-349 | For distinct architectures and tables without repetition, the decision of the compiled filter in terms of the syscall that a number stands for |
| `SeccompFilter.CompiledDecides` | proot/src/syscall/seccomp.c:277-349 | Compiler correctness: the emitted BPF halts on every architecture and number, and decides as specified |
| `SeccompFilter.RunSection` | proot/src/syscall/seccomp.c:159-203 | A section decides for its architecture and is skipped for the others |
| `SeccompFilter.RunBody` | proot/src/syscall/seccomp.c:97-122 | The comparisons of a section find the first entry of a number, else allow |
| `SeccompFilter.LookupFor` | proot/src/syscall/seccomp.c:326-339 | Within an ABI, what is found for a number are the flags listed for its syscall |
| `SeccompFilter.LookupIn` | proot/src/syscall/seccomp.c:326-339 | The same over all the ABIs of an architecture |
| `SeccompFilter.PermutedKeeps` | proot/src/syscall/seccomp.c:243-263 | Sorting the list changes nothing for any syscall |
| `SeccompFilter.MergedKeeps` | proot/src/syscall/seccomp.c:496-535 | Merging keeps one entry per syscall, forgets none and or-s all flags |
| `SeccompFilter.MergedAllKeeps` | proot/src/syscall/seccomp.c:544-577 | The same over the lists of the tracer and of its extensions |
| `SeccompFilter.TranslateSysnumIff` | proot/src/syscall/sysnum.c:81-100 | The translation of numbers, whose bound is one too large, is right for every number if and only if no syscall is stored just past the table |
| `SeccompFilter.TranslateIff` | proot/src/syscall/sysnum.c:81-123 | Within the table, numbering and its inverse agree for every known syscall |
| `SeccompFilter.DetranslateSysnum` | proot/src/syscall/sysnum.c:104-123 | The scanning loop finds the first entry |
| `SeccompFilter.MergeFilteredSysnums` | proot/src/syscall/seccomp.c:496-535 | The nested loops compute the merged list |
| `SeccompFilter.FilteredSysnumFlags` | proot/src/syscall/seccomp.c:584-609 | The nested loops compute the or of all the flags |
| `SeccompFilter.CountTraced` | proot/src/syscall/seccomp.c:311-320 | The number of traced syscalls is known before they are emitted |
| `SeccompFilter.CountFor` | proot/src/syscall/seccomp.c:313-319 | Those of one ABI |
| `SeccompFilter.SetSeccompFilters` | proot/src/syscall/seccomp.c:277-349 | The builder emits the compiled filter, and fails exactly when a number or a section length does not fit 32 bits or a section starts where the 16 bits of the length can not tell; the kernel is told the length of the filter if and only if it fits 16 bits |
| `SeccompFilter.Program.StartArchSection` | proot/src/syscall/seccomp.c:159-203 | The head of a section, with its range check; its end is kept in 16 bits |
| `SeccompFilter.Program.AddTraceSyscall` | proot/src/syscall/seccomp.c:97-122 | One comparison and its return, with its range check |
| `SeccompFilter.Program.EndArchSection` | proot/src/syscall/seccomp.c:130-151 | The end of a section, with the check of its length |
| `SeccompFilter.Program.AddAbi` | proot/src/syscall/seccomp.c:326-339 | The traced syscalls of one ABI |
| `SeccompFilter.Program.AddArch` | proot/src/syscall/seccomp.c:308-345 | One architecture: the check of the section length fails if and only if the section starts past the 16 bits of the length |
| `SeccompFilter.Program.Finalize` | proot/src/syscall/seccomp.c:211-229 | The last statement, and the length in 16 bits |
| `Loading.ObjectLoads` | proot/src/execve/enter.c:82-123 | For ascending segments with congruent offsets, at any page aligned base: mapping and clearing leaves file bytes then zeros in every segment, each byte with exactly the rights to read, write and execute of its segment, and changes nothing off its pages, though mappings overshoot by a page; the process is killed exactly if some segment does not survive |
| `Loading.SegmentLoads` | proot/src/execve/enter.c:82-123 | The same for one segment |
| `Loading.ProtRights` | proot/src/execve/enter.c:90-92 | The protection of a mapping gives exactly the rights that the segment asks for |
| `Loading.SurvivesIff` | proot/src/execve/enter.c:94-100 | A writable segment with bytes to clear kills the process if and only if its file part ends at the end of the file, on a page boundary |
| `Loading.AlignedBssKills` | proot/src/execve/enter.c:94-100 | Such a segment |
| `Loading.ClearableIff` | proot/src/loader/loader.c:144-153 | The end of the last file page can be cleared if and only if the segment survives |
| `Loading.AlignedMapStep` | proot/src/loader/loader.c:144-153 | With an aligned end, exactly the bytes of clear_length are cleared |
| `Loading.ClearExactIff` | proot/src/loader/loader.c:56-85 | clear() writes its range and nothing else if and only if a word boundary lies in it |
| `Loading.ClearTooMuch` | proot/src/loader/loader.c:56-85 | Inside one word the whole word is written |
| `Loading.AddressSpace.Clear` | proot/src/loader/loader.c:56-85 | Leading bytes, words and trailing bytes: exactly which bytes become zero, and when the process is killed |
| `Loading.AddressSpace.ClearUnits` | proot/src/loader/loader.c:72-84 | One of its loops, by bytes or by words |
| `Loading.LoadInfo.AddMapping` | proot/src/execve/enter.c:57-125 | A file mapping, and an anonymous one when more pages are needed |
| `Loading.LoadInfo.FilePart` | proot/src/execve/enter.c:83-103 | The mapping of the pages of the file, with the bytes to clear |
| `Loading.LoadInfo.AddLoadBase` | proot/src/execve/enter.c:314-328 | Every mapping and the entry point move by the base |
| `LoadScript.ProcessImage` | proot/src/execve/exit.c:176-331 | The script of a program and its interpreter either kills the process, exactly if a segment of either can not be cleared, or starts it with every segment of both in place, and with AT_BASE the load address of the object that was opened last |
| `LoadScript.LoadProcess` | proot/src/loader/loader.c:111-263 | The same for the interpreter loop run on the coded words |
| `LoadScript.Interpreter.Interpret` | proot/src/loader/loader.c:111-192 | The loop over a cursor gives the meaning of the script that was coded |
| `LoadScript.Interpreter.StepWords` | proot/src/loader/loader.c:120-192 | One statement is decoded and executed, and the cursor moves by its size |
| `LoadScript.Interpreter.MapStatement` | proot/src/loader/loader.c:144-170 | A mmap statement: FATAL, killed, or mapped and cleared, with the first address of a file as base |
| `LoadScript.Interpreter.MapPages` | proot/src/loader/loader.c:144-153 | The mapping, then the clearing of its end |
| `LoadScript.Interpreter.ClearEnd` | proot/src/loader/loader.c:149-152 | The clearing, which may kill the process |
| `LoadScript.Interpreter.OpenPath` | proot/src/loader/loader.c:123-142 | The file at a path, or FATAL |
| `LoadScript.ScriptComplete` | proot/src/execve/exit.c:176-331 | The script starts the program with its last statement and no other |
| `LoadScript.ObjectPhase` | proot/src/loader/loader.c:123-161 | Opening an object and mapping it leaves its image and its base |
| `LoadScript.ExecuteMappings` | proot/src/execve/exit.c:146-170 | The statements of mappings do what the mappings do |
| `AuxVector.AdjustAuxv` | proot/src/loader/loader.c:184-242 | argc, argv and envp are skipped; only the values of the known kinds change, to those of the loaded program and of argv[0]; the first pair is not compared with AT_NULL |
| `AuxVector.ProgramFinds` | proot/src/loader/loader.c:207-242 | Afterwards getauxval() finds the same kinds in the vector, the known ones with the values of the loaded program, all others as the kernel left them |
| `AuxVector.KindsFound` | proot/src/loader/loader.c:207-242 | Kind by kind: AT_PHDR, AT_PHENT, AT_PHNUM, AT_BASE, AT_ENTRY and AT_EXECFN are found with the values of the program, argv[0] and the base, exactly if they were there, and every other kind as it was |
| `AuxVector.StaysInsideIff` | proot/src/loader/loader.c:207-242 | Nothing outside the vector changes if and only if it has a first pair, or no word up to the next AT_NULL looks like a known kind with another value |
| `AuxVector.EmptyVectorOverrun` | proot/src/loader/loader.c:207-242 | A stack on which something else is changed |
| `Startup.StartProgram` | proot/src/execve/exit.c:176-368 | The tracer and the loader together, in one memory: from the block written below the stack alone, with the files at the paths that it finds there, the loader starts the program with every segment of it and of its interpreter in place, or is killed exactly when some segment can not be cleared; it starts at the entry point of the interpreter, or of the program without one, with the entry point, the headers at their offset in the loaded program and the name of the program for the auxiliary vector; the block is never overwritten |
| `ScriptLayout.LastStarts` | proot/src/execve/exit.c:295-331 | The script ends by starting the program, after making the page of the stack pointer executable exactly if that is needed |
| `Startup.ProgramIsReady` | proot/src/loader/loader.c:123-142 | Objects that can be loaded from the disk can be loaded from the addresses of their paths |
| `Startup.ScriptsAgree` | proot/src/execve/exit.c:272-331 | The script that is transferred is the one that makes the process image |
| `ScriptMemory.InterpretAt` | proot/src/loader/loader.c:111-242 | The loader, reading each statement from the memory that the statements before have changed, does what the script means |
| `ScriptMemory.StepAt` | proot/src/loader/loader.c:118-180 | One statement, read from memory and carried out; the rest of the script is still there |
| `ScriptMemory.LoadStatement` | proot/src/loader/loader.c:118-121 | The words of a statement, of the width of the program, as many as its action has |
| `ScriptMemory.StepKeepsBlock` | proot/src/loader/loader.c:144-170 | A statement changes nothing outside its pages, though it maps whole pages and clears whole words |
| `ScriptMemory.ObjectSpares` | proot/src/execve/enter.c:82-123 | The mappings of an object stay within the pages of its segments |
| `Startup.ScriptSparesBlock` | proot/src/execve/exit.c:272-331 | A script whose objects are mapped elsewhere does not touch its own block |
| `Startup.ReadPath` | proot/src/loader/loader.c:123-142 | The path at an address of the block |
| `ScriptLayout.TransferLoadScript` | proot/src/execve/exit.c:176-368 | Below the stack pointer and aligned (16 bytes on ARM64), the loader finds every word of the script in its own width and every NUL-terminated path at the address the script gives; the script ends by starting the program, field by field as StartProgram says |
| `ScriptLayout.TransferBlock` | proot/src/execve/exit.c:222-368 | Both size assertions hold and the block is script, strings and padding |
| `ScriptLayout.TransferredReads` | proot/src/execve/exit.c:222-368 | What a transferred block reads as, narrowed or not |
| `ScriptLayout.ScriptSizeIs` | proot/src/execve/exit.c:254-263 | The size computed beforehand is the size of the script |
| `ScriptLayout.NewStackPointerAligned` | proot/src/execve/exit.c:239-251 | The padding keeps the new stack pointer aligned |
| `ScriptLayout.StringsInPlace` | proot/src/execve/exit.c:246-251 | Each string address holds its string |
| `ScriptLayout.NarrowedReads` | proot/src/execve/exit.c:333-338 | Slot i of the narrowed script holds word i modulo 2^32, and the strings are untouched |
| `ScriptLayout.Narrow` | proot/src/execve/exit.c:333-338 | The conversion in place, one half of a word after the other |
| `ScriptLayout.TranscriptMappings` | proot/src/execve/exit.c:146-170 | The words of the statements of mappings, through a cursor |
| `ScriptLayout.WriteScript` | proot/src/execve/exit.c:272-331 | All the words of the script, in order |
| `ScriptLayout.CopyStrings` | proot/src/execve/exit.c:340-353 | The strings, one after the other |
| `Bindings.EditedValid` | proot/src/path/binding.c:326-450 | No sequence of insertions and removals breaks the lists: one binding per guest path, nested ones before their container, the same bindings on both sides |
| `Bindings.InsortedValid` | proot/src/path/binding.c:346-450 | One insertion keeps the lists valid, whatever was bound |
| `Bindings.RemovedValid` | proot/src/path/binding.c:326-338 | One removal does |
| `Bindings.InsortedMembers` | proot/src/path/binding.c:346-450 | After an insertion: the new binding, and those at other guest paths |
| `Bindings.RemovedMembers` | proot/src/path/binding.c:326-338 | After a removal: all but the removed one |
| `Bindings.FirstMatchIsDeepest` | proot/src/path/binding.c:153-214 | The first match is the binding with the longest prefix of the path |
| `Bindings.FirstMatchSound` | proot/src/path/binding.c:153-214 | The first match covers the path; no match means that none does |
| `Bindings.RootIsLast` | proot/src/path/binding.c:248-274 | The binding of "/" is the last of the guest list |
| `Bindings.FindPlace` | proot/src/path/binding.c:352-429 | The scan: the binding at the same guest path, else one past the last contained one |
| `Bindings.CompareBindings` | proot/src/path/binding.c:358-413 | The comparison decides equality and containment, whether or not a path is stored with a trailing slash |
| `Bindings.NameSpace.Insort` | proot/src/path/binding.c:346-450 | Both lists after insort_binding2() |
| `Bindings.NameSpace.RemoveFromAllLists` | proot/src/path/binding.c:326-338 | Both lists after a removal |
| `Bindings.NameSpace.GetBinding` | proot/src/path/binding.c:153-214 | The search, with the guard for paths of the root file-system |
| `Bindings.FirstCovering` | proot/src/path/binding.c:163-184 | The scan finds the first binding at or above the path |
| `Paths.NormalizeGuestPath` | proot/src/path/path.c:114-164 | In a fixed buffer: fails exactly on relative paths and over-long components, else gives the fold over a stack of components; the overflow test never fires |
| `Paths.NormalIsCanonical` | proot/src/path/path.c:114-164 | The normal form is canonical and normalizing is idempotent |
| `Paths.CanonicalIsNormal` | proot/src/path/path.c:114-164 | A canonical path is its own normal form |
| `Paths.ApplyInPlace` | proot/src/path/path.c:125-159 | One component in the buffer: skipped, popped (ignored at the root) or pushed |
| `Paths.PopName` | proot/src/path/path.c:141-147 | The last component is cut off |
| `Paths.PushName` | proot/src/path/path.c:148-157 | A component is appended within the buffer |
| `Paths.JoinComponents` | proot/src/path/path.c:52-100 | Joining concatenates components |
| `Paths.JoinFits` | proot/src/path/path.c:52-112 | What fits with a separator is joined, with exactly one slash in between; what does not fit is ENAMETOOLONG |
| `Paths.CompareDecidesComponents` | proot/src/path/path.c:705-756 | On canonical paths, possibly with a trailing slash: exactly equality, component prefix of either kind, or neither |
| `Translation.RoundTripIff` | proot/src/path/path.c:571-684 | For every path that translation does not cut off: detranslating gives it back if and only if, in a root other than "/", its binding shows the place where the path already is, and elsewhere its binding is the one that the host side finds there (or that one is cut off and the path did not change) |
| `Translation.RootRoundTrip` | proot/src/path/path.c:571-684 | It does for every path of a root file-system other than "/" |
| `Translation.DisjointRoundTrip` | proot/src/path/path.c:571-684 | It does for every path of a binding whose host tree overlaps no other nor the root |
| `Translation.TranslateIsGraftIff` | proot/src/path/binding.c:288-321 | Every canonical guest path is bound, and translates by exchanging the prefix of its binding if and only if the result fits: otherwise it stays as it is, the error being dropped |
| `Translation.ThroughIsGraftIff` | proot/src/path/binding.c:288-321 | The same for one binding, from either side: it exchanges the prefix if and only if nothing is to be substituted, or the result fits and the guest path is not stored with a slash at its end |
| `Translation.DetranslateInRoot` | proot/src/path/path.c:654-672 | Inside a root other than "/", the root is stripped |
| `Translation.DetranslateElsewhere` | proot/src/path/path.c:638-652 | Elsewhere the deepest host binding is undone, unless the result does not fit |
| `Translation.DetranslateRefusesIff` | proot/src/path/path.c:571-684 | ENAMETOOLONG exactly from 4096 characters on, a relative path left alone, and EPERM exactly for an absolute path in the host tree of no binding |
| `Translation.SubstituteIsGraftIff` | proot/src/path/path.c:848-907 | All the special cases of "/" amount to exchanging a prefix, if and only if the result fits |
| `Translation.FitsIff` | proot/src/path/path.c:872-897 | The result fits exactly if it has fewer than 4096 characters; only the root bound elsewhere needs one more |
| `Translation.SubstitutePathPrefix` | proot/src/path/path.c:848-907 | The exchange in place, refused when the result would not fit |
| `Translation.MovePrefix` | proot/src/path/path.c:881-900 | The two moves in the buffer |
| `Translation.GetSound` | proot/src/path/binding.c:153-214 | A binding found for a path is listed and at or above the path |
| `PivotResolution.PivotPreservesResolution` | proot/src/syscall/enter.c:448-581 | After the pivot a path resolves to the host path that new_root/path resolved to, whatever is bound below the new root and however put_old is spelled, unless it is under put_old or under a binding left outside |
| `PivotResolution.OldRootResolution` | proot/src/syscall/enter.c:527-577 | After the pivot put_old/path resolves to the host path that the path resolved to before, for every path outside the new root and put_old whose binding nothing hides |
| `PivotResolution.HiddenOldRoot` | proot/src/syscall/enter.c:527-577 | Otherwise it resolves to what the deepest hiding binding shows, one that lands below the binding shown again or moves right there later; that is the same host path if and only if it shows the same place |
| `PivotResolution.DeepestHiding` | proot/src/syscall/enter.c:527-577 | There is one |
| `PivotResolution.SlashedOldRoot` | proot/src/syscall/enter.c:495-503 | A put_old that keeps its trailing slash: no binding of the old root is found again, put_old/path stands for the place of the path in the old root file-system, and the substitution leads there if and only if that root is put_old itself on the host |
| `PivotResolution.SlashedResolutionIff` | proot/src/syscall/enter.c:559-577 | That is what the path stood for before if and only if its binding showed that place |
| `PivotResolution.Origins` | proot/src/syscall/enter.c:527-577 | Every binding listed after the pivot is the new root, the old root, one that moved, one shown again, or one left as it was |
| `Pivot.PivotRoot` | proot/src/syscall/enter.c:448-581 | Exactly what is listed after the loop over the snapshot, with or without a trailing slash on put_old: at each path the last insertion, and what was neither replaced, moved nor the root |
| `Pivot.SwitchRoot` | proot/src/syscall/enter.c:523-529 | The root is switched over and the old one inserted at put_old |
| `Pivot.NewRootListed` | proot/src/syscall/enter.c:526-527 | After the pivot the root is the new root |
| `Pivot.OldRootListed` | proot/src/syscall/enter.c:528-529 | The old root is listed at put_old, with its trailing slash if it has one, if nothing was bound at new_root/put_old |
| `Pivot.OldRootHidden` | proot/src/syscall/enter.c:551-556 | If something was, it is listed there instead |
| `Pivot.AliasListed` | proot/src/syscall/enter.c:559-577 | What belonged to the old root is listed again below put_old, unless a binding of the new root moves to the same path later |
| `Pivot.MovedListed` | proot/src/syscall/enter.c:547-557 | What was below the new root is listed at the path that is left, unless a binding of the old root is shown again at the same path later |
| `Pivot.ModeKeptIff` | proot/src/syscall/enter.c:547-557 | A binding that moves with the new root keeps its access mode if and only if it was read-write |
| `Pivot.StepMoved` | proot/src/syscall/enter.c:547-557 | One binding moves below the new root without disturbing those handled before |
| `Pivot.StepAliased` | proot/src/syscall/enter.c:559-577 | One binding is shown again under put_old, in place of what was there |
| `Pivot.StepSkipped` | proot/src/syscall/enter.c:536-538 | One binding is passed over |
| `Pivot.PutOldAfterIff` | proot/src/syscall/enter.c:489-504 | There is a place for the old root exactly when put_old, with or without trailing slash, is strictly within the new root, and it is the path that leads there, with the same ending |
| `Pivot.DotTrickExposesOldRoot` | proot/src/syscall/enter.c:489-504 | After pivot_root(".", ".") the old root is listed at "/.", where the comment of these lines says nowhere |
| `Pivot.PivotToDot` | proot/src/syscall/enter.c:474-581 | The same from the canonicalization of "." on |
| `Pivot.UmountUndoesMountIff` | proot/src/syscall/enter.c:583-614 | Unmounting undoes a mount if and only if nothing was bound at the mount point and its path is not stored with a trailing slash |
| `Pivot.UmountedIs` | proot/src/syscall/enter.c:591-614 | Unmounting changes nothing if and only if the path is the root or no binding is stored under exactly this path; else that binding alone is taken off |
| `Pivot.HiddenMountIsLost` | proot/src/syscall/enter.c:583-614 | A mount over another one, unmounted again, leaves nothing |
| `Pivot.BoundPathFindsItself` | proot/src/syscall/enter.c:591-614 | A bound path finds its own binding |
| `Pivot.Mount` | proot/src/syscall/enter.c:399-439 | A binding is inserted if and only if it is no remount and both source and target are known; by flags and type, the source, the directory of the host or a new one; read-only exactly if asked for |
| `Pivot.MountShows` | proot/src/syscall/enter.c:399-432 | proc, sysfs, devtmpfs and devpts show /proc, /sys, /dev and /dev/pts of the host, tmpfs a new directory, a bind mount its source, and any other type and a remount nothing |
| `Pivot.Umount` | proot/src/syscall/enter.c:591-614 | The binding at the path is removed, and only if it is there |
| `Canon.Canonicalize` | proot/src/path/canon.c:205-433 | Terminates on every file-system, cyclic links included; levels above 3 fail; the result spells exactly the stack reached within the levels, with "/." if and only if the last component is ".", "/" if and only if it is ".." or the path ends in a slash (or has no component), and no ending otherwise; where lengths do not matter it succeeds if and only if there is such a stack, and tells the errno of the resolution otherwise |
| `Canon.ReachedSound` | proot/src/path/canon.c:205-433 | That stack is the one of the unbounded resolution of all links, after at most 7 of them, and without links the lexical one |
| `CanonComplete.ReachedComplete` | proot/src/path/canon.c:205-433 | The converse: a path whose unbounded resolution, on directories all the way, meets at most three links arrives where that does, or fails with ENOENT if it is stuck at a missing place and with ENOTDIR at one that is neither a directory nor a link |
| `CanonComplete.RefusalIsTrue` | proot/src/path/canon.c:183-190 | On a file-system that is a tree, any refusal but ELOOP means that the unbounded resolution is stuck, and for that reason |
| `CanonComplete.ClimbMeets` | proot/src/path/canon.c:376-397 | The same at any level, for no more links than there are levels left |
| `CanonComplete.FateSplit` | proot/src/path/canon.c:376-397 | Resolving the target of a link in place, in front of what follows, is resolving it on its own first, if it can be passed |
| `CanonComplete.TreeHasDirectories` | proot/src/path/canon.c:183-190 | On a tree the resolution is on directories all the way |
| `Canon.DotStays` | proot/src/path/canon.c:265-269 | The path "." stays where it is and keeps its dot |
| `Canon.CheckSpelling` | proot/src/path/canon.c:224-250 | The checks before the walk: exactly which paths are refused |
| `Canon.Walk` | proot/src/path/canon.c:252-402 | The same for the loop over components, with the finality of the last one |
| `Canon.Visit` | proot/src/path/canon.c:278-402 | One component: appended, or followed if it is a link; fails only if the resolution does, with its errno, or a length limit matters |
| `Canon.FollowLink` | proot/src/path/canon.c:363-397 | The k-th link at a level recurses k levels up; where lengths do not matter, its errno is that of the resolution, or ENOENT or ENOTDIR for what can not be passed |
| `Canon.NextComponent` | proot/src/path/canon.c:88-128 | The next component, its length check and whether it is the last |
| `Canon.PopComponent` | proot/src/path/canon.c:45-79 | The last component is removed, never the root |
| `Canon.AddEnding` | proot/src/path/canon.c:404-430 | Exactly the "/" or "/." that the finality asks for |
| `Canon.SpellingIs` | proot/src/path/canon.c:404-430 | A dot where the path ends in ".", a slash where it ends in ".." or in a slash or names nothing, and no ending elsewhere |
| `Canon.UnlinkedWalkIsNormal` | proot/src/path/path.c:114-164 | A walk that followed no link leads to what normalize_guest_path() gives for the path, or for the joined path if it is relative |
| `Canon.ChopFinalityIff` | proot/src/path/path.c:317-334 | Takes off either ending, and leaves a path without ending unchanged if and only if its last name does not end in a dot |
| `Canon.ChopFinalityEatsName` | proot/src/path/path.c:317-334 | "/a." becomes "/" |
| `CanonIdeal.ReachesAppend` | proot/src/path/canon.c:205-433 | Unbounded resolution of a path is that of its first part followed by that of the rest |
| `CanonIdeal.ClimbReaches` | proot/src/path/canon.c:215-218 | What is reached within the levels is what is reached without them |
| `CanonIdeal.ClimbBudget` | proot/src/path/canon.c:389-389 | The k-th link at a level being resolved k levels up, at most 2^(3-level)-1 links are followed |
| `CanonIdeal.ClimbUnlinked` | proot/src/path/canon.c:252-402 | Without a link a path leads where it does lexically |
| `CanonIdeal.ClimbDirectories` | proot/src/path/canon.c:252-402 | Where there are only directories, every path is climbed as it is spelled |
| `CanonIdeal.LinkRowIff` | proot/src/path/canon.c:215-218 | A path of n links in a row, each back to the root, is refused if and only if n is more than 3 |
| `HeapEmulation.RunEmulates` | proot/src/syscall/heap.c:54-213 | In every run with every kernel answer: the mapping spans the heap and the page before it, and each call returns the break that was asked for if the kernel could resize, else the old one; a process whose first call is no query, or whose heap is disabled, uses the break of the kernel with its own argument, and no other call moves that |
| `HeapEmulation.HeapFollowsProgram` | proot/src/syscall/heap.c:73-124 | The first query asks for a page at the end of the program; if the kernel grants that, the break is one page further on |
| `HeapEmulation.BaseIsFixed` | proot/src/syscall/heap.c:54-213 | Once set, the base never moves |
| `HeapEmulation.BrkStep` | proot/src/syscall/heap.c:54-213 | One call, in all its cases: first, suspicious, query, resize, disabled |
| `HeapEmulation.ErrnoIff` | proot/src/syscall/heap.c:154-197 | Through the int cast, errors are recognized and no page aligned address is taken for one |
| `HeapEmulation.HeapRecord.BrkEnter` | proot/src/syscall/heap.c:54-145 | The syscall made in place of brk |
| `HeapEmulation.HeapRecord.BrkExit` | proot/src/syscall/heap.c:150-213 | The update of the heap and the value returned |
| `RemoteArray.PushFetchRoundTrip` | proot/src/execve/aoxp.c:305-439 | Pushing an array and fetching it again gives the same list of strings |
| `RemoteArray.BlockReadsBack` | proot/src/execve/aoxp.c:353-439 | The pushed block, pointer table and strings, reads back as the list |
| `RemoteArray.FetchedRepresents` | proot/src/execve/aoxp.c:305-345 | What is fetched from a table is its list |
| `RemoteArray.ResizedRepresents` | proot/src/execve/aoxp.c:256-296 | Resizing commutes with the meaning of the entries |
| `RemoteArray.Fetch` | proot/src/execve/aoxp.c:305-345 | All the words up to NULL, or EFAULT at the first that can not be read |
| `RemoteArray.ReadText` | proot/src/tracee/mem.c:412-420 | Every outcome: the string with its NUL below ARG_MAX, ENOMEM when it fills the buffer, EFAULT when it runs into unmapped memory, or when its last word does and there is no process_vm_readv |
| `RemoteArray.AllocMem` | proot/src/tracee/mem.c:637-673 | Room below the stack pointer, and below the red zone the first time |
| `RemoteArray.XPointers.Read` | proot/src/execve/aoxp.c:99-131 | A cached read returns the string of the list and keeps the meaning of the array |
| `RemoteArray.XPointers.Write` | proot/src/execve/aoxp.c:213-222 | The entry becomes a local copy |
| `RemoteArray.XPointers.WriteAll` | proot/src/execve/aoxp.c:229-249 | Consecutive entries become local copies |
| `RemoteArray.XPointers.Resize` | proot/src/execve/aoxp.c:256-296 | Entries are inserted or dropped in front of an index |
| `RemoteArray.XPointers.Push` | proot/src/execve/aoxp.c:353-439 | Nothing to do if and only if no entry is local; E2BIG if and only if the stack pointer is not above the table, the strings and, the first time, the red zone; else the block is written right below; not all entries are ever local |
| `Shebang.ExpandedChain` | proot/src/execve/shebang.c:231-304 | k nested shebangs, k < 20, give interp_k, optional arg_k, and so on down to the path of the script, then argv[1..] untouched, with an empty argv too |
| `Shebang.ExpandedIs` | proot/src/execve/shebang.c:231-304 | A program only comes out of such a chain |
| `Shebang.TooManyShebangs` | proot/src/execve/shebang.c:296-297 | As many shebangs as rounds is ELOOP |
| `Shebang.FirstErrorWins` | proot/src/execve/shebang.c:231-256 | The first error met is told: of a path that can not be executed, of a file that can not be read, or of an interpreter that can not be executed |
| `Shebang.RewriteArgv` | proot/src/execve/shebang.c:276-293 | One round on the array of pointers |
| `Shebang.ExpandShebang` | proot/src/execve/shebang.c:208-297 | The loop over the array refines the rewriting of a plain list, errors included; an argv[] that can not be read is EFAULT exactly when there is a shebang |
| `Shebang.ExpandRounds` | proot/src/execve/shebang.c:231-297 | The same for any number of rounds |
| `Shebang.RunRound` | proot/src/execve/shebang.c:232-294 | One round: an error, a program, or argv[] rewritten |
| `Shebang.ExpandedFollows` | proot/src/execve/shebang.c:231-297 | A chain takes one round for each of its scripts |
| `Shebang.FetchArgv` | proot/src/execve/shebang.c:258-264 | argv[] is fetched as its list, or EFAULT if and only if a word before its NULL can not be read |
| `Shebang.ExpandAndPush` | proot/src/execve/shebang.c:208-304 | Without shebang nothing changes; else E2BIG if and only if the stack has no room for the expanded argv[], and otherwise the guest finds it at the pointer |
| `Shebang.PushArgv` | proot/src/execve/shebang.c:299-304 | The same for the push |
| `RemoteString.ReadString` | proot/src/tracee/mem.c:412-536 | Equals a scan of the bytes and stays within its buffer: the size with NUL even if the next page is not mapped; without NUL, max_size + 1 if and only if one more word can be read; else EFAULT |
| `RemoteString.ReadChunks` | proot/src/tracee/mem.c:451-492 | The chunked path finds the NUL, or falls back only without one |
| `RemoteString.ReadWords` | proot/src/tracee/mem.c:495-535 | The word-by-word path |
| `RemoteString.SamePage` | proot/src/tracee/mem.c:455-471 | A chunk does not cross a page boundary |
| `RemoteString.LastPageFaults` | proot/src/tracee/mem.c:519-524 | max_size readable bytes without NUL at the end of a mapping are EFAULT |
| `Netlink.ReplyIsWellFormed` | proot/src/syscall/enter.c:1164-1277 | Every reply: messages of whole words with their length and the sequence number of the request, NLMSG_DONE last exactly for dumps |
| `NetlinkAttributes.ReplyAttributes` | proot/src/syscall/enter.c:799-889 | In every reply the walk over attributes finds exactly those of the loopback: none is dropped, and each has its length, kind and padding |
| `NetlinkReplies.ReplyIs` | proot/src/syscall/enter.c:1164-1277 | Every message of a reply carries NLM_F_MULTI exactly for dumps and the process that asked, and a dump ends with NLMSG_DONE |
| `NetlinkReplies.BodyIs` | proot/src/syscall/enter.c:1207-1275 | RTM_GETLINK is answered by RTM_NEWLINK about interface 1 or by ENODEV, other requests by an empty dump or an acknowledgement |
| `NetlinkReplies.AddressesAre` | proot/src/syscall/enter.c:1122-1148 | RTM_GETADDR is answered by the address of the family asked for, or by that of IPv4 and then that of IPv6, with their prefix lengths |
| `NetlinkReplies.LoopbackIs` | proot/src/syscall/enter.c:799-889 | The loopback is "lo" with an MTU of 65536, a queue of 1000, up and without hardware address, at 127.0.0.1 and ::1 |
| `NetlinkReplies.RequestIs` | proot/src/syscall/enter.c:1189-1205 | There is no reply to fewer than 16 bytes; a dump is asked for exactly by both bits of NLM_F_DUMP, and the family is the byte behind the header, or none |
| `NetlinkAttributes.AttrsRoundTrip` | proot/src/syscall/enter.c:775-792 | Attributes written one after the other are read back |
| `Netlink.RequestReads` | proot/src/syscall/enter.c:1204-1208 | What the guest put in the header of its request is what is answered |
| `Netlink.AnswerMessage` | proot/src/syscall/enter.c:1164-1277 | From the bytes of a request: no reply to what is too short or can not be read |
| `Netlink.MadeReads` | proot/src/syscall/enter.c:837-844 | The fields of a header are read back |
| `Netlink.BuildReply` | proot/src/syscall/enter.c:1164-1277 | The bytes of the reply, in a fixed buffer; the end of a dump always fits |
| `Netlink.BuildAddresses` | proot/src/syscall/enter.c:1122-1148 | The addresses of the loopback, by family |
| `Netlink.BuildMessage` | proot/src/syscall/enter.c:799-889 | Fixed part, attributes that fit, and header with the length |
| `Netlink.AddAttr` | proot/src/syscall/enter.c:775-792 | An attribute with its padding, dropped if it does not fit |
| `Netlink.AppendPlain` | proot/src/syscall/enter.c:895-943 | An end or error message, dropped if it does not fit |
| `NetlinkQueue.DeliveryIs` | proot/src/syscall/enter.c:1292-1337 | For any receives and peeks: the datagrams concatenate to the reply, NLMSG_DONE is alone in its own, and two reads empty the queue |
| `NetlinkQueue.FakeSocket.Exchange` | proot/src/syscall/enter.c:1741-1896 | A request and any receives: two reads or more with enough room give the guest the reply whole and in order, whatever it peeks at in between |
| `NetlinkQueue.FakeSocket.ReceiveAll` | proot/src/syscall/enter.c:1849-1896 | Any receives, of any size, peek and truncation: what each of them gives, and what is left |
| `NetlinkQueue.WholeReplyTaken` | proot/src/syscall/enter.c:1849-1896 | The bytes taken by reads with room are the reply, once there were as many reads as datagrams |
| `NetlinkQueue.DatagramIs` | proot/src/syscall/enter.c:1292-1311 | Nothing is lost between a datagram and what follows |
| `NetlinkQueue.DatagramLength` | proot/src/syscall/enter.c:1292-1311 | The walk over headers gives the length of the next datagram |
| `NetlinkQueue.FakeSocket.Send` | proot/src/syscall/enter.c:1741-1751 | A message makes its reply pending, if it has one |
| `NetlinkQueue.FakeSocket.Receive` | proot/src/syscall/enter.c:1849-1896 | Any buffer size; a peek changes nothing; MSG_TRUNC returns the whole length |
| `NetlinkQueue.FakeSocket.Consume` | proot/src/syscall/enter.c:1330-1337 | The datagram is dropped whole |
| `Extensions.RunKeepsValid` | proot/src/extension/extension.c:42-126 | After any attachments and removals a slot is NULL exactly when no listed extension has its callback, and otherwise points to a listed one |
| `Extensions.CacheIsWalk` | proot/src/extension/extension.c:132-158 | With at most one extension per cached callback, the cached lookup is the list walk |
| `Extensions.RebuiltIsWalkIff` | proot/src/extension/extension.c:84-95 | After a removal, if and only if |
| `Extensions.RemovalChangesAnswer` | proot/src/extension/extension.c:84-95 | Removing an unrelated extension changes which of two is returned |
| `Extensions.Registry.New` | proot/src/extension/extension.c:102-126 | The list and the cache after an attachment |
| `Extensions.AttachedIsFound` | proot/src/extension/extension.c:102-126 | A new extension comes first, is found from then on in place of an older one with its callback, and no other look-up changes |
| `Extensions.Registry.Remove` | proot/src/extension/extension.c:42-68 | The list and the cache after a removal |
| `Extensions.DetachedKeeps` | proot/src/extension/extension.c:42-68 | Exactly the first extension with that address is taken off, and the others keep their order; without one nothing changes |
| `Extensions.Registry.RebuildCache` | proot/src/extension/extension.c:84-95 | The last of the list wins |
| `Extensions.Registry.GetExtension` | proot/src/extension/extension.c:132-158 | The lookup equals its specification |

## Left out

- Word overflow: addresses and sizes are unbounded numbers, and blocks fit below the stack pointer.
- Allocation failures (ENOMEM), notes and verbosity.
- Handlers of individual syscalls: what they may do to the interception state is a parameter.
- Interception.RunsAreFaithful: one tracee; no SIGSYS handling, no pokedata workaround, no failing ptrace request, and so no syscall that is restarted as a chained one because its number can not be changed.
- Chaining.ChainIsFaithful: no syscall restarted as a chained one because its number can not be changed (syscall/syscall.c:244-281), and no 32-bit masking of registers on a 64-bit kernel.
- Chaining.RestartOriginal: the number of the original syscall is queued as it is; the detour through the neutral numbering is the identity for known syscalls (SeccompFilter.TranslateIff).
- SeccompFilter.TranslateIff: about numbers within the table; SeccompFilter.TranslateSysnumIff tells what happens just past it.
- SeccompFilter.FilterAgreesWithTracer: flags are sets of bits; the sorting routine is any permutation; installing the filter is not modelled.
- LoadScript.ProcessImage: the rights of the stack that is made executable are not followed, mmap succeeds on aligned requests, and mmap2 offsets are not scaled.
- LoadScript.Interpreter.StepWords: only words of coded statements are met, so that the case of an unknown action is not taken.
- Startup.StartProgram: every word of the script fits the word size of the program, no object is mapped over the block, and the paths are looked up in the block before the first statement, which makes no difference since it does not change.
- AuxVector.AdjustAuxv: the stack is that of a new process, with an AT_NULL somewhere behind the first pair.
- ELF parsing, interpreter lookup and load addresses (execve/enter.c:166-300, 335-365), and the start of the program by registers.
- Canon.Canonicalize: no emulation of /proc links, no glue directories, no policy of extensions, no detranslation of link targets (path/canon.c:378-382); a file-system is a function from canonical paths to nodes.
- Translation.RoundTripIff: no referrer, no /proc path; a path that is cut off on the way to the host is the subject of Translation.TranslateIsGraftIff only.
- Pivot.PivotRoot: both arguments are already canonicalized, no name-space is shared, and no binding is left from an earlier pivot whose put_old had a trailing slash.
- PivotResolution.OldRootResolution: for a binding whose path has room for put_old, others being passed over.
- PivotResolution.SlashedOldRoot: for paths below put_old that nothing else covers; at put_old itself the stored path is longer than the path that it is taken off, and the source does not define what comes of it.
- Pivot.Mount: source and target are already resolved and chopped.
- Translation.TranslateIsGraftIff: for name-spaces whose guest paths are stored without trailing slash; Translation.ThroughIsGraftIff and PivotResolution.SlashedOldRoot are about the others.
- Shebang.ExpandShebang: the strings that argv[] points to can be read; reading the first line of a script (execve/shebang.c:51-196) is a parameter, and so are the checks of executables.
- RemoteArray.XPointers.Read: arrays of objects other than strings, comparison and search.
- RemoteString.ReadString: memory comes in pages, and process_vm_readv reads an element whole or not at all.
- Netlink.BuildReply: the fixed parts are those of the loopback, the only interface ever shown; whether a single RTM_GETLINK asks for it is a parameter.
- NetlinkQueue.FakeSocket.Receive: recvmsg, scattered buffers and the source address.
- HeapEmulation.RunEmulates: the choice between mmap and mmap2, and heaps shared between threads.
- Extensions.RunKeepsValid: callbacks, inheritance and configuration; the five cache slots are one map.
- Guest ptrace and wait emulation, supervise mode, the command line, resource limits and the other extensions: mostly input and output, or easy members.
