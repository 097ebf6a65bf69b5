# Proofs about ChrysaLisp

Dafny models of the parts of ChrysaLisp where the most goes on, with proofs of what those parts
are for. Each `.dfy` file is one module; `dafny verify dfyconfig.toml` checks them all.

## What is here

**The array class** (`ArrayClass.dfy`, `ArraySort.dfy`). Elements are in an array that is written
in place, capacity and length are fields, and pointers to elements are indices. `:append`, `:cat`,
`:slice` and `:splice` are proved equal to joins and cuts of sequences; in `:splice` the exclusive
or swap is done on numbers, so that lengths and sources are in step is proved and not assumed.
`:sort` keeps its intervals on a second array, packed two indices to an element, and gives that
array back as it was. Its comparator may be any that orders the elements, with ties.

**Which registers are still wanted** (`Liveness.dfy`, `Relies.dfy`, `Vp64.dfy`, `Vp64Laws.dfy`,
`Vp64Machine.dfy`, `RelySound.dfy`, `FlowExact.dfy`). `Liveness` is the backward loop of `cmd/relies.lisp`, proved to end with just
what some control path reads, or leaves giving, before it is written. `Relies` is the rest of
`relies-of`: its two worklists and the report. `Vp64` says what each VP instruction does to
registers and memory, and what `flow-of` says it reads and writes. `RelySound` puts the two
together: two machines, that agree on memory, on the stack pointer and on what is wanted, go the
same way and leave with the same in every register the function gives, calls doing as they are
declared to. `FlowExact` is the other way about: what `flow-of` says is read can make a difference
and what it says is written can be changed, with the places where it says too much named exactly.
`RelySound.Report` is all of `relies-of`, from instructions to report. `Vp64Laws` is what the
machine's own arithmetic, memory and stack come to: a store read back, a pop after a push, a divide. `Vp64Machine` is the machine as a thing whose registers and
memory are assigned to, proved to do what `Vp64` says, with the constants the assembler writes read
back as they were.

**Locals in registers** (`Locals.dfy`). The forward loops of `cmd/locals.lisp`, `had` going down
and `dirty` going up, against statements about ways from the entry, and `live`, which is the loop of
`Liveness` over what a function does to its locals.

**The CTF font file** (`CtfFormat.dfy`, `CtfRoundTrip.dfy`, `CtfFile.dfy`). The format as a
function each way, when the one undoes the other, where each entry of the offset table points, and
the loops of `write-ctf` and `load-ctf-buf` proved equal to those functions.

**Protocols, as steps of whatever threads there are** (`Shader.dfy`, `NetSlots.dfy`,
`NetConnects.dfy`, `GpuTurns.dfy`). A run is any list of actions, each what one thread does between two moves of the
others. What SDL, the GPU, the resolver or a socket call answers is part of the action, so it may be
anything. `GpuTurns` has one thread and is a class over the array of flights, with its runs over
a map of what is in flight.

**The sound mixer** (`Mixer.dfy`, `MixerTable.dfy`). What a mix is, a frame at a time, and the
class that adds up a voice at a time; the limiter's bound; the table of sounds against a map. A
pointer to a sound is its place in the table.

**Networks of nodes** (`Shapes.dfy`, `Nets.dfy`). The links of each shape, that they make one
network, who is handed which link, a network that is a system of its own, and which networks
go when one is stopped.

**Drawing in software** (`Pixels.dfy`, `Canvas.dfy`). The blend of two channels to a multiply
against a blend of each, and the filled box, box and blit against what each pixel should be.

**A directory walk, and touches** (`Walk.dfy`, `WalkVisits.dfy`, `WalkPaths.dfy`, `Touch.dfy`). The
walk with its own stack and path buffer against a recursion, whatever fails, which paths it comes to,
and what a removal leaves. The ids
of touches over whole runs of events.

## What is assumed

- `:sys_mem` gives at least what it is asked for, and a block that is made bigger keeps what was in
  it. What is over is the parameter `more`.
- What the Lisp `splice` checks of its indices before `:splice` (class/seq/lisp.vp:115-160) is
  `ArrayClass.ValidCuts`.
- A method that is called keeps the stack pointer, goes by memory and by the registers it takes,
  and leaves what it is not declared to trash or give (`RelySound.Behaves`).
- `expf` lies over 0 and not over 1 where it is used, and not under its tangent at 0
  (`Mixer.IsExp`). `Mixer.WantNeverTurnsUp` shows that the last is just what keeps the gain from
  passing 1.
- Clocks do not go back. A directory does not change while it is walked, but by the walk itself.
- The clip of the raw driver is not empty and is inside the screen.

## What was found

- `flow-of` has it that `emit-trash` writes the registers it names, and the assembler makes nothing
  of it. A register that is trashed and then given is not asked for before
  (`RelySound.TrashWritesNothing`). `RelySound.KeepsIff` has the exact condition.
- `flow-of` says more is read than the machine goes by: where a divide puts what is left over, a
  register compared or branched on with itself, and one that goes with a constant that settles the
  answer, as 0 does of an `and`. It says more is written than can be changed: the first of a `lnot`
  or a `land`, and what a constant or the register itself leaves as it is. And the register of a
  stack that is set up is changed and not said to be written. `FlowExact.ReadIff` and
  `FlowExact.WrittenIff` show that these are all.
- In `had`, a call that nothing comes to takes away what was had after it on ways that are come to
  (`Locals.StrayCall`). With every call reachable `had` is exact (`Locals.HadExact`), and
  `Locals.HadIs` says what it is without that.
- A CTF page that ends at code 0 or 65535 reads as the end of the tables, and a glyph with no path
  is not loaded, so such a font does not come back (`CtfRoundTrip.RoundTrip`, both ways, and
  `CtfRoundTrip.NotGivenBack`).
- The mixer's handles go round at 2^32. They stay distinct just when the next is not still held
  (`MixerTable.Board.Add`, `MixerTable.HandleCollides`), and the one after the last is 0, which is
  also how `mixer_add` says there is no room.
- `:sort` packs an interval as two 32-bit indices, so `ArraySort.Sort` asks that the range ends below
  2^32.
- A close that comes after a resolver has looked for the last time is told it has closed the socket,
  and the slot ends up connected, connecting or failed (`NetSlots.ClosedTooLate`). One before that
  frees it, and no other does (`NetSlots.FreedIff`).
- `walk_directory` leaves its directories open when a path is too long, and only then
  (`WalkVisits.ClosedUnlessLong`, `WalkVisits.LongStaysOpen`).
- What the last visit to the outermost folder returns is not looked at
  (`WalkVisits.RootPostIsNotAsked`), and it is the one visit that may have failed in a walk that is
  reported as done (`WalkVisits.OnlyRootFails`). A folder right in the root that cannot be opened is
  passed over, so it stays, the root stays with it, and the removal is reported as done
  (`WalkVisits.RemovalLeaves`, `WalkVisits.RemovedIff`, `WalkVisits.ShutStays`).
- `node-spawn` is documented to link each new node to every other. Asked for more than 31 it starts
  some with no link at all (`Shapes.NodeSpawn`).
- With 32 fingers down on a panel, an event of another puts one of them out (`Touch.FullLosesOne`).
- `host_gui_filled_box` and `host_gui_blit` step and then test for the end, so with an empty clip a rect
  that reaches over it is drawn on and on, past the buffer: their loops come to an end just when the
  clip is not empty (`Canvas.LoopsEndIff`, `Canvas.EmptyClipRunsOn`). `Canvas.Canvas.SetClip` asks for
  one that is not.

## Model

| member | source | states |
|---|---|---|
| `ArrayClass.Array.SetCap` | class/array/class.vp:285-330 | a block that is made bigger keeps all it had and has room for twice what was asked; nothing happens if there is room |
| `ArrayClass.Array.PushBack` | class/array/class.vp:159-195 | the element goes on the end, the rest stay, whether or not the block is made again |
| `ArrayClass.Array.PopBack` | class/array/class.inc:264-276 | the last element is given and taken off |
| `ArrayClass.Array.Append` | class/array/class.vp:478-518 | the cut goes on the end, also when it is a cut of the array itself |
| `ArrayClass.Cat` | class/array/class.vp:662-709 | the new array is all of them joined in order |
| `ArrayClass.CattedAt` | class/array/class.vp:662-709 | an element of the k-th array comes after all of those before it and at its own place |
| `ArrayClass.CopyAll` | class/array/class.vp:689-703 | the second pass writes just what the first counted |
| `ArrayClass.Array.Slice` | class/array/class.vp:711-754 | the cut: from the start on up, or with the start past the end the k-th element is the one at the start less 1 less k |
| `ArrayClass.CutIs` | class/array/class.vp:733-749 | a cut forward is as it was, and a cut back has the last first, element by element |
| `ArrayClass.SpliceOn` | class/array/class.vp:794-825 | splicing on by one more pair is what was spliced and a cut of the source whose turn it is |
| `ArrayClass.SplicePair` | class/array/class.vp:794-825 | what the pair at an even place adds, and that it is in range of its source |
| `ArrayClass.SpliceRoom` | class/array/class.vp:774-793 | no part of a splice is longer than the room made for all of it |
| `ArrayClass.XorBack` | class/array/class.vp:774-793 | the difference of two numbers takes the one to the other |
| `ArrayClass.XorTurns` | class/array/class.vp:774-793 | the exclusive or swap alternates lengths, and sources, by the parity of the swaps so far |
| `ArrayClass.SpliceTotal` | class/array/class.vp:774-793 | the total of the first pass is the length of what the second writes |
| `ArrayClass.SpliceInto` | class/array/class.vp:794-825 | the second pass writes the cuts of the two sources by turns |
| `ArrayClass.Splice` | class/array/class.vp:756-831 | the new array is the cuts of the two sources by turns, each reversed if its start is past its end |
| `ArrayClass.SpliceAt` | class/array/class.vp:794-825 | element by element: which source a pair is of, by whether it is an even or an odd one, and that source's elements up from the one index or down from it |
| `ArraySort.SwapShuffles` | class/array/class.vp:351-417 | an exchange inside a range leaves the same elements in it and the rest untouched |
| `ArraySort.Gather` | class/array/class.vp:393-406 | after the loop what is less than the first element is next to it, and what is not comes after |
| `ArraySort.Pivot` | class/array/class.vp:351-417 | the range is parted about the place returned and is a shuffle of what it was |
| `ArraySort.PartedPlaces` | class/array/class.vp:419-476 | parting one interval leaves every two elements in order, or both in an interval still to be done |
| `ArraySort.DonePlaces` | class/array/class.vp:419-476 | an interval of one or none can be let go |
| `ArraySort.Unpack` | class/array/class.vp:441-469 | two 32-bit indices come back out of the element they share |
| `ArraySort.Sort` | class/array/class.vp:419-476 | it ends, the range is in order and a shuffle of what it was, the rest is untouched, and the stack is given back as it was, in an array of any length |
| `Liveness.WantedStep` | cmd/relies.lisp:255-260 | wanted by a whole path is wanted by one step and what comes after it |
| `Liveness.StepSound` | cmd/relies.lisp:264-269 | an assignment of the loop puts down only what is wanted |
| `Liveness.StepRising` | cmd/relies.lisp:264-269 | an assignment of the loop takes no register away |
| `Liveness.Live` | cmd/relies.lisp:241-269 | the loop ends, and a register is live at an instruction just when some control path reads it, or leaves giving it, before writing it |
| `Relies.InnerOf` | cmd/relies.lisp:250-254 | the worklist marks just the instructions that can be got to from the ones it is given |
| `Relies.FindReader` | cmd/relies.lisp:281-288 | the reader found is on a way to it with no write before, and none is found just when there is no such way |
| `Relies.ReliesOf` | cmd/relies.lisp:207-291 | the report has, in order, one line for every call that trashes and does not give a register wanted after it, and no other |
| `Vp64Machine.Parts3` | src/host/vp64.cpp:284-291 | four words hold a 64-bit number, the last one signed |
| `Vp64Machine.CrForms` | lib/trans/vp64.inc:28-36 | each of the four forms of a constant holds it |
| `Vp64Machine.Machine.Constant` | src/host/vp64.cpp:284-291 | what is read of each form, and that the counter goes by its words |
| `Vp64Machine.Machine.ReadCr` | src/host/vp64.cpp:284-299 | what the assembler wrote of a constant and a register is what is read |
| `Vp64Machine.Machine.RunCr` | src/host/vp64.cpp:295-299 | a constant operation, read from the words the assembler wrote, is done with the constant and register it was written with |
| `Vp64Machine.Machine.Swap` | src/host/vp64.cpp:136 | two registers change places, and one with itself stays |
| `Vp64Machine.Machine.Quotient` | src/host/vp64.cpp:157-158 | a divide comes to the answer and what is left over, whichever registers are the same |
| `Vp64Machine.Machine.PushAll` | lib/trans/vp64.inc:281-285 | room and then stores, of registers as they are after the room is made |
| `Vp64Machine.Machine.PopAll` | lib/trans/vp64.inc:287-291 | loads from the last named, and then the room is given back |
| `Vp64Laws.PushIs` | lib/trans/vp64.inc:281-285 | after a push the first named is in the highest slot, the stack pointer is down by a slot for each, and no other byte is touched |
| `Vp64Laws.PopAfterPush` | lib/trans/vp64.inc:281-291 | a pop gives back what a push of the same registers put by, and the stack pointer, whatever became of the registers and of the rest of memory between, and touches no other register |
| `Vp64Laws.RetAfterPush` | src/host/vp64.cpp:202-203 | a return goes to what was pushed last, and takes just that off |
| `Vp64Laws.StackInitHolds` | lib/trans/vp64.inc:293-297 | a stack that is set up has its two words above where its pointer is left, the first named lowest |
| `Vp64Laws.PeekPoke` | src/host/vp64.cpp:170-198 | what is read where something was put is what of it there was room for |
| `Vp64Laws.FetchPoke` | src/host/vp64.cpp:170-198 | a number that fits its place comes back from it, of any width, with a sign or without |
| `Vp64Laws.LoadAfterStore` | src/host/vp64.cpp:170-198 | a load from where a store was, by either way of saying where, gives what was stored |
| `Vp64Laws.PokeFrame` | src/host/vp64.cpp:170-198 | a store leaves every byte it is not of as it was |
| `Vp64Laws.PlaceIs` | src/host/vp64.cpp:170-198 | an address is the sum of its parts in 64 bits, and a load is of the place there |
| `Vp64Laws.SumIs` | src/host/vp64.cpp:99-102 | add, subtract and multiply are those of whole numbers, in 64 bits |
| `Vp64Laws.CompareIs` | src/host/vp64.cpp:114-121 | a compare is the sign of a subtract, each is the other of one, and min and max go by it |
| `Vp64Laws.TestIs` | src/host/vp64.cpp:206-211 | a branch is taken just when the set of the same name would give 1 |
| `Vp64Laws.ShiftIs` | src/host/vp64.cpp:106-113 | a shift up multiplies by a power of 2, in 64 bits, and a shift down divides by it and goes down |
| `Vp64Laws.BitsAre` | src/host/vp64.cpp:103-105 | each bit of an `and`, an `or` or an `xor` goes by the two that are there |
| `Vp64Laws.DivideIs` | src/host/vp64.cpp:152-157 | the number is the answer by what it was divided by and what is left over, which is less than that and of the number's sign; and what a divide by 0, and of the most negative by -1, come to |
| `Vp64Laws.DivideUnsigned` | src/host/vp64.cpp:158 | so of numbers with no sign |
| `Vp64Laws.AbsIs` | src/host/vp64.cpp:168 | the size of a number is the greater of it and of 0 less it |
| `Vp64Laws.TruthIs` | src/host/vp64.cpp:134-135 | a not is a compare with 0, and an and of truths is the `and` of what is not 0 |
| `Vp64Laws.AllocUndone` | lib/trans/vp64.inc:278-279 | room taken and given back leaves all as it was, and what is taken is a whole number of slots and no more than it need be |
| `Vp64Laws.SwapUndone` | src/host/vp64.cpp:136 | a swap puts each register's number in the other, and done again puts them back |
| `Vp64Laws.ExecKeeps` | src/host/vp64.cpp:93-222 | from 64-bit registers and memory of bytes every instruction comes to the same kind |
| `Vp64Machine.Machine.Do` | src/host/vp64.cpp:93-222 | what an instruction assigns, in its order, comes to what it is said to do, and control goes on from there |
| `RelySound.SelfIsZero` | cmd/relies.lisp:108-109 | a register taken from itself, or xor with itself, is 0 whatever it was |
| `RelySound.ExecAgrees` | cmd/relies.lisp:98-131 | `flow-of` is sound: an instruction goes by no register not said to be read, and those said to be written come out the same |
| `FlowExact.ReadIff` | cmd/relies.lisp:91-131 | what `flow-of` says is read is just what can make a difference to memory, to where control goes, or to a register, and the idle ones that are named |
| `FlowExact.WrittenIff` | cmd/relies.lisp:91-131 | what it says is written is just what can be changed, and the kept ones that are named, all but the register of a stack that is set up |
| `FlowExact.UnwrittenIsLeft` | cmd/relies.lisp:91-131 | what it does not say is written is left as it is by every run of the instruction |
| `FlowExact.CallReadIff` | cmd/relies.lisp:221-226 | a known call reads just what the method can go by: what it takes, and the register its table is found by |
| `FlowExact.CallWrittenIff` | cmd/relies.lisp:221-226 | and writes just what the method may change |
| `FlowExact.NotFollowed` | cmd/relies.lisp:225-240 | before a call of a part of itself nothing is wanted, and before one of what is not known all that is wanted after and every register named |
| `FlowExact.NextIff` | lib/asm/assembled.inc:57-69 | `next-of` has just the places control can go on to, and of a branch that goes one way the other as well |
| `RelySound.CallAgrees` | cmd/relies.lisp:221-226 | two calls that see the same give the same and leave alone the same |
| `RelySound.StepAgrees` | cmd/relies.lisp:255-275 | a step keeps two machines alike if nothing it leaves loose is wanted after it |
| `RelySound.KeepsIff` | cmd/relies.lisp:270-276 | a step keeps every two machines alike just when nothing it leaves loose is wanted after it |
| `RelySound.SameWay` | cmd/relies.lisp:255-269 | two runs that agree on what is wanted go the same way |
| `RelySound.SameEnd` | cmd/relies.lisp:255-269 | two runs that agree on what is wanted leave with the same memory, for the same place, with the same in every register the function gives |
| `RelySound.ReportedIff` | cmd/relies.lisp:270-276 | a known call, not exempt, is reported just when dead registers can come to matter over it |
| `RelySound.NothingReported` | cmd/relies.lisp:207-291 | with nothing reported, and every call known, no step of the function leaves loose what is wanted, which is what `SameWay` and `SameEnd` ask |
| `RelySound.RootsOf` | cmd/relies.lisp:246-249 | the roots are just the instructions in the function that a local call goes to or an address is taken of |
| `RelySound.MarkInner` | cmd/relies.lisp:242-254 | `inner` is just what some control path gets to from such a root |
| `RelySound.Report` | cmd/relies.lisp:207-291 | from the instructions alone: a known call, but for `sys/pii/exit` and `gui/view/forward_tree`, has a line just when dead registers can come to matter over it, and nothing else has one |
| `RelySound.TrashWritesNothing` | cmd/relies.lisp:130 | a function where what `flow-of` says of `emit-trash` lets a register be given that was not asked for |
| `Locals.HadAndDirty` | cmd/locals.lisp:215-240 | both loops end, the one going down and the other up, at a fixpoint |
| `Locals.HadIs` | cmd/locals.lisp:222-240 | `had` has a local just when every way from the entry touched it since the last call and no unreachable call takes it away |
| `Locals.HadExact` | cmd/locals.lisp:222-240 | with every call reachable, just when every way from the entry touched it since the last call |
| `Locals.DirtyIs` | cmd/locals.lisp:222-240 | `dirty` has a local just when on some way it was written since the last call |
| `Locals.DirtyExact` | cmd/locals.lisp:222-240 | `dirty` has a local just when on some way from the entry it was written since the last call |
| `Locals.StrayCall` | cmd/locals.lisp:218-240 | a load, a jump over a call that nothing comes to, and the end: the call takes away what was had |
| `Locals.LiveLocals` | cmd/locals.lisp:178-199 | `live` has a local just when some way on reads it, or takes its address, before writing it |
| `CtfRoundTrip.HeldGlyph` | cmd/ctf.lisp:889-943 | where a glyph's record is held, the loader reads that glyph, or nothing if it has no path |
| `CtfRoundTrip.LoadedIs` | cmd/ctf.lisp:860-964 | what is loaded of any font that fits the file |
| `CtfRoundTrip.LoadedKern` | cmd/ctf.lisp:978 | a font with no kern of its own comes back with its descent turned round for one |
| `CtfRoundTrip.NumbersAre` | cmd/ctf.lisp:974-1073 | numbers are written low byte first |
| `CtfRoundTrip.RealIs` | cmd/ctf.lisp:1036-1062 | a real is written as 8192ths, cut toward 0 |
| `CtfRoundTrip.Layout` | gui/font/struct.inc:9-23 | where each part of a header, a page's table and a glyph's record is |
| `CtfRoundTrip.RecordPadded` | cmd/ctf.lisp:1066-1069 | a record is its parts and just as many zeros as take it to a multiple of 4 |
| `CtfRoundTrip.RoundTrip` | cmd/ctf.lisp:860-1073 | loading gives back what was written just when no glyph is empty, every page is maximal and none ends where the loader stops |
| `CtfRoundTrip.NotGivenBack` | cmd/ctf.lisp:860-1073 | two fonts that come back empty: one with no path in its glyph, one with a page that ends at 65535 |
| `CtfRoundTrip.EntryIsRecord` | cmd/ctf.lisp:1000-1015 | the entry of a glyph is where its record begins, anywhere in a file |
| `CtfRoundTrip.OffsetTable` | cmd/ctf.lisp:987-1016 | each entry of the offset table written is the byte where that glyph's record begins, a multiple of 4 |
| `CtfFile.PathLength` | cmd/ctf.lisp:1028-1034 | the length added up by kinds is that of the bytes of the path |
| `CtfFile.WriteGlyph` | cmd/ctf.lisp:1021-1068 | the record, and zeros to the next that begins on 4 |
| `CtfFile.WriteCtf` | cmd/ctf.lisp:974-1073 | the loops write the encoding of the font |
| `CtfFile.LoadGlyph` | cmd/ctf.lisp:887-943 | the cursor reads the glyph at an offset |
| `CtfFile.LoadPages` | cmd/ctf.lisp:947-963 | glyphs whose codes follow on are one page |
| `CtfFile.LoadCtf` | cmd/ctf.lisp:860-964 | the loops load the decoding of the file, of any bytes |
| `Shader.MoveKeeps` | src/host/gui_sdl3.cpp:572-583 | every move of every thread keeps the invariant |
| `Shader.NeverMisused` | src/host/gui_sdl3.cpp:572-583 | in every run nothing is used after it has gone, no shader is freed twice and no pipeline released twice |
| `Shader.FreedOnce` | src/host/gui_sdl3.cpp:719-727 | a shader built and destroyed is freed once, whichever comes last, and one not destroyed is not freed |
| `Shader.DeviceOutlasts` | src/host/gui_sdl3.cpp:301-309 | the device is there while any shader is being built |
| `Shader.DeviceGoesIff` | src/host/gui_sdl3.cpp:301-309 | a driver that waits to close lets the device go when it looks just when no shader is still being built |
| `GpuTurns.GrantedIff` | src/host/gui_sdl3.cpp:753-801 | of the map of flights: a draw is granted just when the texture has none in flight, all others are fresh, there is room and nobody else has the turn |
| `GpuTurns.RoomForAll` | src/host/gui_sdl3.cpp:803-809 | in every run there are never more than 32 in flight |
| `GpuTurns.TurnIsKept` | src/host/gui_sdl3.cpp:789-799 | while a texture has the turn no other is granted, till it is granted, destroyed, or the turn is over |
| `GpuTurns.Gpu.Forget` | src/host/gui_sdl3.cpp:123-130 | just that texture goes from the flights, and they stay distinct |
| `GpuTurns.Gpu.Sweep` | src/host/gui_sdl3.cpp:777-788 | what the GPU is done with is let go, and it is busy just when what is left is not all fresh |
| `GpuTurns.Gpu.MayDraw` | src/host/gui_sdl3.cpp:753-801 | the flights stay distinct and are just the textures with a fence; granted is just no fence of its own, every other fresh, room, and nobody else with the turn; one refused for what others do has the next turn if nobody has; one granted gives its turn up, and a turn that is not over stays another's; all this is what the scheduler over a map does |
| `GpuTurns.Gpu.DrawingOf` | src/host/gui_sdl3.cpp:803-809 | a draw handed over with a fence is put in flight, and the flights stay distinct and just the textures with a fence |
| `GpuTurns.Gpu.DestroyTexture` | src/host/gui_sdl3.cpp:343-356 | a texture destroyed is in flight no more and has no turn, another's turn stays, and the flights stay distinct and just the textures with a fence |
| `NetSlots.MoveKeeps` | src/host/net.cpp:91-168 | every move of the caller and of every resolver keeps the invariant |
| `NetSlots.NeverMisused` | src/host/net.cpp:105-168 | in every run no descriptor is closed twice and none is used that is not open |
| `NetSlots.OneWorker` | src/host/net.cpp:240-251 | a slot has one resolver at most and only while it is resolving |
| `NetSlots.NotReallocated` | src/host/net.cpp:91-103 | the slot of a resolver is not given to another while it lives, and a cancel stays |
| `NetSlots.OneOwner` | src/host/net.cpp:105-168 | a descriptor is open just when one slot, resolver or call has it, and only one has |
| `NetSlots.ConnectedIsOpen` | src/host/net.cpp:344-410 | a connected, listening or datagram slot has an open descriptor, but while the caller is closing it |
| `NetConnects.ConnectedWasAnswered` | src/host/net.cpp:132-167 | in every run a slot that is connected has a descriptor that was answered for: its `connect` was done, a poll found it writable, or it was accepted |
| `NetConnects.WorkerConnects` | src/host/net.cpp:154-167 | a resolver not cancelled whose `connect` is done, or on the way, puts its descriptor in the slot and says which |
| `NetConnects.WorkerTriesNext` | src/host/net.cpp:132-151 | one opens a descriptor for an address, and closes it and goes on to the next if that can not be connected to |
| `NetConnects.WorkerFails` | src/host/net.cpp:118-163 | one that finds no address, or none that can be connected to, leaves its slot failed |
| `NetConnects.PollConnects` | src/host/net.cpp:358-410 | a poll that finds a slot that is connecting writable has it connected, and changes nothing else |
| `NetConnects.CloseFrees` | src/host/net.cpp:344-356 | a close of a slot that is not resolving closes its descriptor and frees it, and no other |
| `NetSlots.EndsAs` | src/host/net.cpp:105-168 | a resolver cancelled in time stays so and leaves the slot free with no descriptor; one past its last look stays so and leaves it not free |
| `NetSlots.FreedIff` | src/host/net.cpp:118-167 | of a slot that is cancelled, whatever is done till its resolver ends: it is free then just when the resolver was not past its last look |
| `NetSlots.ClosedTooLate` | src/host/net.cpp:154-167 | a run where a close after the last look leaves the slot connected |
| `Mixer.InParts` | src/host/mixer.h:91-121 | mixing n frames and then m gives the samples, voices and gain of mixing n + m |
| `Mixer.IsFrameByFrame` | src/host/mixer.h:91-121 | mixing a voice at a time gives the samples of mixing a frame at a time |
| `Mixer.VoiceInMix` | src/host/mixer.h:94-107 | what one voice puts in a frame: nothing if it is paused or has ended, or else the sample it has come to, each side by the voice's own part |
| `Mixer.NothingInMix` | src/host/mixer.h:91-107 | with every voice paused or playing nothing a frame is 0 |
| `Mixer.PausedIsKept` | src/host/mixer.h:97 | a voice that is paused is kept just as it is, and the samples are those of the mix with it silent |
| `Mixer.PlaysOn` | src/host/mixer.h:98-107 | one that is not goes on by as many frames as were mixed, or stops if that is to its end |
| `Mixer.WantBounds` | src/host/mixer.h:61-67 | what is wanted of a peak brings it under full scale and never turns it up |
| `Mixer.WantNeverTurnsUp` | src/host/mixer.h:61-67 | it never turns a peak up just when `expf` is not under its tangent there |
| `Mixer.NeverClips` | src/host/mixer.h:109-120 | every sample is strictly between -1 and 1 and the gain stays in (0, 1], whatever the voices add up to |
| `Mixer.GainComesBack` | src/host/mixer.h:109-120 | at or under the knee the gain lacks the same part less with each frame |
| `Mixer.QuietIsUntouched` | src/host/mixer.h:109-120 | what is never over the knee is left as it is |
| `MixerTable.AddedLib` | src/host/mixer.h:127-136 | a sound added is added to the map, and handles stay distinct just when its handle is not held |
| `MixerTable.UnderIsNew` | src/host/mixer.h:130 | till handles go round the next is not held |
| `MixerTable.HandleCollides` | src/host/mixer.h:127-136 | a table where the next handle, gone round, is one that is still held |
| `MixerTable.SwappedLib` | src/host/mixer.h:199-202 | the last put over one sound takes just that one out of the map |
| `MixerTable.RepointedHeard` | src/host/mixer.h:194-198 | a voice on the sound that goes is silent, any other plays on, the same sound at the same position, whether or not handles are distinct |
| `MixerTable.PanSides` | src/host/mixer.h:156-161 | a pan turns one side down, by as much as it is to the other, and leaves the other, and the far ends turn it off |
| `MixerTable.Board.Add` | src/host/mixer.h:127-136 | the map has the sound, voices play on, and when handles stay distinct |
| `MixerTable.Board.PickVoice` | src/host/mixer.h:145-155 | there is one voice that is the first free, or if none is the first of those that started first, and it is picked |
| `MixerTable.Board.Play` | src/host/mixer.h:141-165 | it plays on the first free voice, or on that which started first, and no other changes |
| `MixerTable.Board.Change` | src/host/mixer.h:170-183 | the voices on the first sound of that handle are paused, resumed or stopped, and no other; with handles distinct, those that play the handle |
| `MixerTable.Board.Remove` | src/host/mixer.h:188-205 | the voices on the first sound of that handle stop and every other plays on with its sound and position; with handles distinct the map loses just that handle |
| `MixerTable.Board.Take` | src/host/mixer.h:210-215 | all stops and the last sound goes |
| `MixerTable.Board.TakeAll` | src/host/audio_sdl3.cpp:63 | taking till there are none gives each sound's samples once |
| `MixerTable.Board.MixInto` | src/host/mixer.h:91-121 | the loops, a voice at a time, make the mix; a paused voice is kept and not heard, and one that is not goes on by the frames mixed or ends |
| `MixerTable.Board.Feed` | src/host/audio_sdl3.cpp:24-35 | however much is asked for, in parts of 1024 frames, is as if it were mixed at once |
| `Shapes.Size` | sys/lisp.inc:157-168 | a count that fits is kept, one that does not is brought down to the most that fits, and one not given is the most for the processors |
| `Shapes.Links.Pair` | sys/lisp.inc:159-163 | a link is added once, and never of a node to itself |
| `Shapes.MeshAsks` | sys/lisp.inc:173-177 | what a node of a mesh links itself to, by row and column: the next in its row and in its column, going round |
| `Shapes.CubeAsks` | sys/lisp.inc:178-183 | what a node of a cube links itself to, by its three places: the next along each, going round |
| `Shapes.NodeShape` | sys/lisp.inc:149-186 | the links are just those of the shape, each once, of nodes there are, and there are no more nodes than 64, or 32 |
| `Shapes.Totals` | sys/lisp.inc:157-168 | how many nodes there are of each shape: the count, its square or its cube, and how many at most |
| `Shapes.LineLinks` | sys/lisp.inc:169-185 | the links of a ring, a star, a tree and a full network, by number: of a tree each node is linked to the one at half of it less 1 |
| `Shapes.LowerLink` | sys/lisp.inc:169-185 | every node but the first is linked to one before it |
| `Shapes.ShapeConnected` | sys/lisp.inc:149-186 | from any node of any shape there is a way to any other |
| `Shapes.HungConnected` | sys/lisp.inc:210-213 | renumbered, and hung from the node that asks, it is still one network, with that node on one link |
| `Shapes.NodeNet` | sys/lisp.inc:198-219 | what is started is just the shape's nodes and links, or for a system of its own those one on and the one link of node 0, each once, and it is one network |
| `Shapes.NodeSpawn` | sys/lisp.inc:188-196 | each new node is linked to every other just when there are no more than 31, and those past 31 are on no link |
| `Shapes.Distribute` | sys/lisp.inc:103-113 | each node is handed the names of the links it is on, in order |
| `Shapes.SharedName` | sys/lisp.inc:103-113 | with no name used twice, two nodes share one just when they are to be linked, and no third has it |
| `Nets.ToStop` | sys/lisp.inc:342-351 | found are just the networks hung from the named one, near or far, each once and after that it was come to from |
| `Nets.FarGoesFirst` | sys/lisp.inc:352-387 | a network goes before the only one it hangs from |
| `Pixels.BlendIsPaint` | src/host/gui_raw.cpp:314-319 | the blend of two channels at once is that of each by itself |
| `Pixels.NoCarry` | src/host/gui_raw.cpp:314-319 | no channel runs into the next just when each stays a byte, and with a premultiplied source they do |
| `Pixels.ShadeNear` | src/host/gui_raw.cpp:317-318 | what a blend leaves of the pixel under is not more than the exact part, and less by under 2 |
| `Pixels.ColorWords` | src/host/gui_raw.cpp:267-273 | the packed colour is each channel by the alpha |
| `Pixels.TintWords` | src/host/gui_raw.cpp:391-392 | the words of a texture's colour by an alpha, two channels at once, are each channel by the alpha |
| `Pixels.ScaledIs` | src/host/gui_raw.cpp:267-273 | a channel by an alpha is 1 more than it, by 256ths of the alpha, cut down |
| `Pixels.ScaledPremultiplied` | src/host/gui_raw.cpp:247-273 | a colour by an alpha is premultiplied, and with full alpha is the colour itself |
| `Canvas.Canvas.SetColor` | src/host/gui_raw.cpp:267-273 | what is drawn with is the colour by its alpha |
| `Canvas.Canvas.FilledBox` | src/host/gui_raw.cpp:275-324 | the pixels of the rect in the clip, and no other, have the colour over them once |
| `Canvas.Canvas.Box` | src/host/gui_raw.cpp:326-344 | the pixels on the edge of the rect in the clip, and no other, have the colour over them once, corners and all |
| `Canvas.LoopsEndIff` | src/host/gui_raw.cpp:278-323 | of a rect that is not thrown out, the loop along a line and that down the lines both end just when the clip is not empty |
| `Canvas.EmptyClipRunsOn` | src/host/gui_raw.cpp:289-304 | a rect and an empty clip with a line that does not end |
| `Canvas.ElementOk` | src/host/gui_raw.cpp:388-450 | the sources of glyph and coloured mode are premultiplied |
| `Canvas.ElementParts` | src/host/gui_raw.cpp:388-480 | where the alpha, the grey and the colours of an element are in each mode, and that grey goes from black to the tint |
| `Canvas.Canvas.Put` | src/host/gui_raw.cpp:388-490 | an element of a texture of each mode over a pixel |
| `Canvas.Canvas.Blit` | src/host/gui_raw.cpp:346-496 | each pixel of the rect in the clip, and no other, has over it once the element at the same place in the source rect |
| `Walk.RestAllTop` | src/host/pii_linux.cpp:285-341 | what is to come of a stack of directories is the rest of the top one and then of those under it |
| `Walk.StepIn` | src/host/pii_linux.cpp:312-332 | to go in to a folder leaves to come what the recursion has |
| `Walk.Walker.CloseOpen` | src/host/pii_linux.cpp:298 | what is open is closed, the last opened first |
| `Walk.Walker.WalkDirectory` | src/host/pii_linux.cpp:266-343 | the walk with a stack and one path buffer ends and does just what the recursion does, with the same paths, whatever fails |
| `WalkVisits.WalkIsVisits` | src/host/pii_linux.cpp:266-343 | when nothing fails it makes each folder's visits round those of what is in it |
| `WalkPaths.WalksAll` | src/host/pii_linux.cpp:285-341 | a walk that goes well does what it does of its folder and of each entry come to by names other than `.` and `..`, of every one and of nothing else |
| `WalkPaths.WalksNoOther` | src/host/pii_linux.cpp:304-310 | and no walk, however it ends, does anything of any other path |
| `WalkVisits.RestBalanced` | src/host/pii_linux.cpp:290-341 | however it ends each directory is closed as often as it is opened, unless a path is too long |
| `WalkVisits.ClosedUnlessLong` | src/host/pii_linux.cpp:306-307 | nothing is left open just when no path too long was met |
| `WalkVisits.LongLeaks` | src/host/pii_linux.cpp:306-307 | in a tree not too deep, with no visit that fails, one is met just when there is one |
| `WalkVisits.LongStaysOpen` | src/host/pii_linux.cpp:306-307 | a folder of one file that leaves a directory open |
| `WalkVisits.OnlyRootFails` | src/host/pii_linux.cpp:290-302 | of a walk that is reported as done, of any tree, the one visit that can have failed is the last to the root |
| `WalkVisits.RootPostIsNotAsked` | src/host/pii_linux.cpp:294-301 | of any tree, a walk is the same whether that visit fails or not |
| `WalkVisits.FolderGoes` | src/host/pii_linux.cpp:345-353 | with the removal visitors the whole tree goes, each folder when it is empty, and nothing beside |
| `WalkVisits.RemovalLeaves` | src/host/pii_linux.cpp:266-353 | a removal that is reported as done, whatever failed, has left just the folders right in the root that could not be opened, with all in them, and the root if its own removal failed |
| `WalkVisits.RemovedIff` | src/host/pii_linux.cpp:266-353 | with a host that removes any empty folder, it has left something just when a folder right in the root cannot be opened |
| `WalkVisits.ShutStays` | src/host/pii_linux.cpp:319-332 | a folder with one in it that cannot be opened stays, and is reported as removed |
| `Touch.Table.DeviceNumber` | src/host/gui_sdl3_event.h:66-79 | a device keeps the slot it has, or is given the first spare, or shares the last |
| `Touch.Table.ContactNumber` | src/host/gui_sdl3_event.h:84-106 | a finger that is down keeps its number, and one that is not is given the next |
| `Touch.Table.TouchId` | src/host/gui_sdl3_event.h:236-237 | the id is the two together |
| `Touch.IdParts` | src/host/gui_sdl3_event.h:37-48 | in every run an id is of 32 bits, the device over the contact, and never 0 nor one of the mouse, which is device 0 |
| `Touch.TouchedIs` | src/host/gui_sdl3_event.h:84-106 | what an event makes of its finger and of any other on the device, while there is room |
| `Touch.FullLosesOne` | src/host/gui_sdl3_event.h:98-99 | with every contact down, a finger that is not among them puts one out that was |
| `Touch.KeepsId` | src/host/gui_sdl3_event.h:37-48 | in every run with room a finger has one id from landing to lifting |
| `Touch.NoneShared` | src/host/gui_sdl3_event.h:37-48 | no two fingers down have an id between them |
| `Touch.LaterIsBigger` | src/host/gui_sdl3_event.h:37-48 | of two touches of a device the later has the bigger id |

## Left out

- Float opcodes, `call_abi`, `sync` and `brk` of the VP machine, and running the words of a whole
  function: only constants are decoded from words, and instructions are otherwise as the assembler
  has them.
- FlowExact.ReadIff: of a push of registers whose slots are not over half of all addresses.
- Vp64Laws.PopAfterPush: where the slots do not go round the end of the addresses, and the stack
  pointer is not one of the registers.
- RelySound.SameEnd: of functions that call no part of themselves and no method that is not declared;
  `RelySound.Followed` says which.
- A 64-bit load or store past the ends of the address space, and memory that is not there, which
  reads as 0 here.
- `saves-of` of `cmd/relies.lisp`, `cmd/trace.lisp`, and the counts `cmd/locals.lisp` prints.
- More than 62 locals, which `cmd/locals.lisp` does not look at.
- ArraySort.Sort: asks that the range ends below 2^32, since the code packs two indices in one.
- Reading and the rest of the array class: `:find`, `:erase`, `:fill` and the like.
- In the CTF loader, the bounds it works out of each glyph, and loading only some ranges of codes;
  reading past the end of a file gives 0. The sort is an insertion by code.
- CtfRoundTrip.RoundTrip: of fonts whose numbers are multiples of 1/8192 that fit 16 bits, as
  `CtfRoundTrip.Writable` has it.
- Rendering, windows, and the shader's own code; a second init after a deinit.
- Shader.DeviceOutlasts: a shader made with no device is not modelled, the code makes none.
- In the sockets, deinit and init again while a resolver lives, what is sent, and which free slot of
  several a call takes. `addrinfo` lists may be of any length.
- How floats round, in the mixer, and the 64-bit count of plays going round.
- The names of links are given and may be anything; `Shapes.SharedName` asks that none is used
  twice, which the code leaves to chance.
- Nodes that do not start, and the mail that stops them.
- Canvas.Canvas.Blit: one loop for the three modes, with the mode looked at for each element.
- Making a texture, and the copy to the screen.
- Signed overflow of a rect's far corner, which C++ leaves undefined.
- Pens, which are given a slot of the touch table and no contact.
- Touch.LaterIsBigger: while the count has not gone round, as `Touch.Room` has it.
- Directories on other systems than Linux, and links and mounts in a tree.
