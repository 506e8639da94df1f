/**
From a request to a process: the block that is transferred, and the loader
that finds in it the words of its script and the paths of its files.
 */
module Startup {
  import opened Common
  import opened Loading
  import opened LoadScript
  import opened Pages
  import opened ScriptLayout
  import opened ScriptMemory

  /** The files of the guest, by path. */
  type Disk = map<seq<nat>, File>

  /** A program and its interpreter, without the addresses of their paths. */
  datatype Image = Image(segments: seq<Segment>, base: nat)

  function Placed(i: Image, path: nat): Object {
    Object(i.segments, i.base, path)
  }

  ghost predicate CPath(path: seq<nat>) {
    forall i :: 0 <= i < |path| ==> path[i] != 0
  }

  /** The request asks for these images. */
  ghost predicate Describes(r: Request, page: nat, program: Image, interp: Option<Image>) {
    && page > 0 && r.mappings == ObjectMappings(Placed(program, 0), page) && CPath(r.userPath)
    && (r.interp.Some? <==> interp.Some?)
    && (interp.Some? ==> && r.interp.value.mappings == ObjectMappings(Placed(interp.value, 0), page)
                         && CPath(r.interp.value.userPath))
  }

  /** The files are there and can be loaded, and the interpreter leaves the program alone. */
  ghost predicate OnDisk(r: Request, disk: Disk, page: nat, program: Image, interp: Option<Image>) {
    && Describes(r, page, program, interp) && r.userPath in disk
    && Ready(Kernel(page, map[0 := disk[r.userPath]]), Placed(program, 0))
    && (interp.Some? ==>
          && r.interp.value.userPath in disk
          && Ready(Kernel(page, map[0 := disk[r.interp.value.userPath]]), Placed(interp.value, 0))
          && Apart(Kernel(page, map[]), Placed(program, 0), Placed(interp.value, 0)))
  }

  // ---------------------------------------------------------------------
  // What the loader finds in the block
  // ---------------------------------------------------------------------

  /** The path that the kernel reads at an address. */
  method ReadPath(block: seq<nat>, base: nat, addr: nat, ghost path: seq<nat>) returns (r: seq<nat>)
    requires StringAt(block, base, addr, path) && CPath(path)
    ensures r == path
  {
    r := [];
    HoldsAtIs(block, addr - base, Terminated(path));
    assert forall i :: 0 <= i < |path| ==> Terminated(path)[i] == path[i];
    assert Terminated(path)[0] == block[addr - base];
    while block[addr - base + |r|] != 0
      invariant |r| <= |path| && r == path[..|r|]
      decreases |path| - |r|
    {
      assert Terminated(path)[|r|] == block[addr - base + |r|];
      r := r + [block[addr - base + |r|]];
      assert |r| <= |path| && Terminated(path)[|r|] == block[addr - base + |r|];
    }
    assert Terminated(path)[|r|] == 0;
  }

  /** The file at an address. */
  method FileAt(disk: Disk, block: seq<nat>, base: nat, addr: nat, ghost path: seq<nat>) returns (f: Option<File>)
    requires StringAt(block, base, addr, path) && CPath(path)
    ensures f == if path in disk then Some(disk[path]) else None
  {
    var p := ReadPath(block, base, addr, path);
    f := if p in disk then Some(disk[p]) else None;
  }

  function Interpreter(r: Request, align: nat, interp: Option<Image>): Option<Object>
    requires Fits(r, align)
  {
    match interp case None => None case Some(i) => Some(Placed(i, InterpPathAddress(r, align)))
  }

  /** The files at the addresses that the script names. */
  ghost predicate Serves(k: Kernel, r: Request, align: nat, disk: Disk, page: nat)
    requires Fits(r, align)
  {
    && k.page == page
    && (r.userPath in disk ==> UserPathAddress(r, align) in k.files
                               && k.files[UserPathAddress(r, align)] == disk[r.userPath])
    && (r.interp.Some? && r.interp.value.userPath in disk ==>
          InterpPathAddress(r, align) in k.files
          && k.files[InterpPathAddress(r, align)] == disk[r.interp.value.userPath])
  }

  method Serve(r: Request, align: nat, disk: Disk, page: nat, block: seq<nat>, base: nat) returns (k: Kernel)
    requires Fits(r, align) && PathsReadable(r, align, block, base)
    requires CPath(r.userPath) && (r.interp.Some? ==> CPath(r.interp.value.userPath))
    ensures Serves(k, r, align, disk, page)
  {
    var files: map<nat, File> := map[];
    if r.interp.Some? {
      var f := FileAt(disk, block, base, InterpPathAddress(r, align), r.interp.value.userPath);
      if f.Some? {
        files := files[InterpPathAddress(r, align) := f.value];
      }
    }
    var f := FileAt(disk, block, base, UserPathAddress(r, align), r.userPath);
    if f.Some? {
      files := files[UserPathAddress(r, align) := f.value];
    }
    k := Kernel(page, files);
  }

  // ---------------------------------------------------------------------
  // The process
  // ---------------------------------------------------------------------

  /** Where the path is does not matter, only which file is there. */
  lemma {:induction false} ReadyElsewhere(k: Kernel, k': Kernel, i: Image, path: nat)
    requires Ready(k, Placed(i, 0)) && k'.page == k.page && path in k'.files && k'.files[path] == k.files[0]
    ensures Ready(k', Placed(i, path))
  {
  }

  lemma {:induction false} ProgramIsReady(k: Kernel, r: Request, align: nat, disk: Disk, page: nat, program: Image,
                                          interp: Option<Image>)
    requires Fits(r, align) && OnDisk(r, disk, page, program, interp) && Serves(k, r, align, disk, page)
    ensures ProgramReady(k, Placed(program, UserPathAddress(r, align)), Interpreter(r, align, interp))
  {
    ReadyElsewhere(Kernel(page, map[0 := disk[r.userPath]]), k, program, UserPathAddress(r, align));
    if interp.Some? {
      ReadyElsewhere(Kernel(page, map[0 := disk[r.interp.value.userPath]]), k, interp.value,
                     InterpPathAddress(r, align));
      ApartElsewhere(k, page, program, interp.value, UserPathAddress(r, align), InterpPathAddress(r, align));
    }
  }

  lemma {:induction false} ApartElsewhere(k: Kernel, page: nat, program: Image, interp: Image, a: nat, b: nat)
    requires page > 0 && k.page == page && Apart(Kernel(page, map[]), Placed(program, 0), Placed(interp, 0))
    ensures Apart(k, Placed(program, a), Placed(interp, b))
  {
    forall i, x: nat |
      0 <= i < |program.segments|
      && program.segments[i].vaddr + program.base <= x
         < program.segments[i].vaddr + program.base + program.segments[i].memsz
      ensures Untouched(interp.segments, interp.base, page, x)
    {
      assert Placed(program, 0).segments[i] == program.segments[i];
    }
  }

  function StackExec(r: Request, page: nat): Option<nat>
    requires page > 0
  {
    if r.stackExec then Some(Floor(r.stackPointer, page)) else None
  }

  /** The script that is transferred is that of the program and its interpreter. */
  lemma {:induction false} ScriptsAgree(k: Kernel, r: Request, align: nat, page: nat, program: Image,
                                        interp: Option<Image>)
    requires Fits(r, align) && Describes(r, page, program, interp) && k.page == page
    ensures TheScript(r, align, page)
            == Script(k, Placed(program, UserPathAddress(r, align)), Interpreter(r, align, interp),
                      StackExec(r, page), Arguments(r, align), r.ptraced)
  {
  }

  /** Where the block begins. */
  function BlockStart(r: Request, align: nat): nat
    requires Fits(r, align)
  {
    NewStackPointerAligned(r, align);
    r.stackPointer - ScriptSize(r) - StringsSize(r, align)
  }

  /** No page of the program or of its interpreter is mapped over the block. */
  ghost predicate Elsewhere(r: Request, align: nat, page: nat, program: Image, interp: Option<Image>)
    requires Fits(r, align) && page > 0
  {
    forall a :: BlockStart(r, align) <= a < r.stackPointer ==>
      && Untouched(program.segments, program.base, page, a)
      && (interp.Some? ==> Untouched(interp.value.segments, interp.value.base, page, a))
  }

  /** Then the script does not overwrite itself. */
  lemma {:induction false} ScriptSparesBlock(k: Kernel, r: Request, align: nat, page: nat, program: Image,
                                             interp: Option<Image>)
    requires Fits(r, align) && Describes(r, page, program, interp) && k.page == page
    requires ProgramReady(k, Placed(program, UserPathAddress(r, align)), Interpreter(r, align, interp))
    requires Elsewhere(r, align, page, program, interp)
    ensures SparesAll(TheScript(r, align, page), BlockStart(r, align), r.stackPointer)
  {
    var o, i := Placed(program, UserPathAddress(r, align)), Interpreter(r, align, interp);
    ScriptsAgree(k, r, align, page, program, interp);
    var script := TheScript(r, align, page);
    forall j, a | 0 <= j < |script| && BlockStart(r, align) <= a < r.stackPointer ensures Spares(script[j], a) {
      ObjectSpares(o.segments, o.base, k.files[o.path], page, a);
      if i.Some? {
        ObjectSpares(i.value.segments, i.value.base, k.files[i.value.path], page, a);
      }
      ScriptSpares(o.path, ObjectMappings(o, page), InterpOf(i, page), StackExec(r, page), Arguments(r, align),
                   r.ptraced, a, j);
    }
  }

  /** The process begins where it has to: at the entry point of its interpreter, or of the
      program without one, on the stack of the request, with the headers at their offset
      in the loaded program; the name that it will find is the one it was called by. */
  ghost predicate StartedAs(r: Request, page: nat, program: Image, outcome: Outcome, block: seq<nat>, base: nat)
    requires page > 0 && outcome.Started? && program.segments != []
  {
    var args := outcome.args;
    && outcome.traced == r.ptraced
    && args.stackPointer == r.stackPointer
    && args.entryPoint == (if r.interp.Some? then r.interp.value.entry else r.entry)
    && args.atEntry == r.entry
    && args.atPhdr == r.phoff + Floor(program.segments[0].vaddr, page) + program.base
    && args.atPhent == r.phentsize && args.atPhnum == r.phnum
    && StringAt(block, base, args.atExecfn, if r.rawPath.Some? then r.rawPath.value else r.userPath)
  }

  /** A program is started: the tracer writes its script and the paths below the stack,
      and the loader, which reads nothing else than this memory, makes in the same memory
      the process image from the files at these paths, or is killed exactly when some
      segment can not be cleared; what the tracer wrote is never overwritten. */
  method StartProgram(r: Request, align: nat, page: nat, narrow: bool, disk: Disk, memory: Memory,
                      ghost program: Image, ghost interp: Option<Image>)
    returns (outcome: Outcome, k: Kernel, ghost block: seq<nat>)
    requires Fits(r, align) && OnDisk(r, disk, page, program, interp)
    requires AllBelow(AllWords(TheScript(r, align, page)), WordLimit(narrow))
    requires Elsewhere(r, align, page, program, interp)
    ensures Serves(k, r, align, disk, page)
    ensures ProgramReady(k, Placed(program, UserPathAddress(r, align)), Interpreter(r, align, interp))
    ensures var o, i := Placed(program, UserPathAddress(r, align)), Interpreter(r, align, interp);
            ProcessDone(k, o, i, Arguments(r, align), r.ptraced, Survivable(k, o) && InterpSurvives(k, o, i), outcome)
    ensures PathsReadable(r, align, block, BlockStart(r, align))
    ensures outcome.Started? ==> Stored(outcome.loader.memory, BlockStart(r, align), block)
    ensures outcome.Started? ==> StartedAs(r, page, program, outcome, block, BlockStart(r, align))
  {
    var buffer, stackPointer := TransferLoadScript(r, align, page, narrow);
    block := buffer[..];
    k := Serve(r, align, disk, page, buffer[..], stackPointer);
    ProgramIsReady(k, r, align, disk, page, program, interp);
    BlockStored(memory, stackPointer, block);
    outcome := LoadFrom(k, r, align, page, narrow, WithBlock(memory, stackPointer, buffer[..]), stackPointer, block,
                        program, interp);
    ArgumentsStart(r, align, block, stackPointer);
    FirstMapping(program.segments, program.base, page);
  }

  /** The loader, started on a memory that holds the block. */
  method LoadFrom(k: Kernel, ghost r: Request, ghost align: nat, ghost page: nat, narrow: bool, memory: Memory,
                  base: nat, ghost block: seq<nat>, ghost program: Image, ghost interp: Option<Image>)
    returns (outcome: Outcome)
    requires Fits(r, align) && Describes(r, page, program, interp) && k.page == page
    requires ProgramReady(k, Placed(program, UserPathAddress(r, align)), Interpreter(r, align, interp))
    requires AllBelow(AllWords(TheScript(r, align, page)), WordLimit(narrow))
    requires WordsReadable(AllWords(TheScript(r, align, page)), block, narrow)
    requires Elsewhere(r, align, page, program, interp)
    requires base == BlockStart(r, align) && base + |block| == r.stackPointer
    requires Stored(memory, base, block)
    ensures var o, i := Placed(program, UserPathAddress(r, align)), Interpreter(r, align, interp);
            ProcessDone(k, o, i, Arguments(r, align), r.ptraced, Survivable(k, o) && InterpSurvives(k, o, i), outcome)
    ensures outcome.Started? ==> Stored(outcome.loader.memory, base, block)
  {
    ghost var o, i := Placed(program, UserPathAddress(r, align)), Interpreter(r, align, interp);
    ScriptsAgree(k, r, align, page, program, interp);
    ScriptSparesBlock(k, r, align, page, program, interp);
    ProcessImage(k, o, i, StackExec(r, page), Arguments(r, align), r.ptraced, Loader(memory, None, 0, true));
    ScriptComplete(o.path, ObjectMappings(o, page), InterpOf(i, page), StackExec(r, page), Arguments(r, align),
                   r.ptraced);
    var loader := new LoadScript.Interpreter(k, memory);
    outcome := InterpretAt(loader, base, narrow, block, TheScript(r, align, page));
  }
}
