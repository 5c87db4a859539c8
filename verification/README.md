# Models of a configuration server and the libraries it carries

This project models, in Dafny, the parts of the repository that hold an algorithm or a protocol, and proves what
they are for. Nothing here runs the original program.

## What is modelled

**Checksums** (`Bits`, `CrcDivision`, `CrcPolynomial`, `CrcDrivers`, `CrcComputers`, `CrcMirror`). The vendored
Boost.CRC engine. A register is a sequence of bits, lowest first, of the width of the C++ type, with the polynomial
in its low bits. The shifting and masking loops, the table and all byte-wise updates are methods. They are proved
against one-bit division steps, which in turn are proved to compute the remainder of polynomial division over the
two-element field. The parameter model is the one of Ross Williams, "A Painless Guide to CRC Error Detection
Algorithms", section 15.

**Boxes and the atom** (`BoxHeap`, `Atom`, `AtomProof`, `AtomBooks`, `AtomVersions`, `AtomResults`, `AtomCalls`,
`AtomBoxCalls`, `AtomReturns`). Reference-counted cells with reusable addresses, and a step system for any number of
threads that load, store, exchange and update the atom, and create, copy, move, assign, update and destroy boxes of
their own. A step is one access to shared state; a step on a null or freed cell is a fault, and no run has one. The
log of commits is the linearization order.

**Positional lookup** (`RrbTree`, `RrbLookup`, `RrbCheck`). Relaxed radix balanced trees as the gdb printer walks
them, against plain indexing into the flattened sequence. Sizes below a regular node count from the left edge of an
ancestor, as in the source, so the masks do real work.

**The wire path** (`Memory`, `Protocol`, `Connection`, `SendQueue`, `Delivery`). The byte buffers, the command codec,
the reassembly buffer with its parse loop and move to the front, the send queue as a state machine of strand tasks
and asynchronous writes, and the two ends of a connection put together.

**Free lists** (`FreeListSpec`, `FreeListRuns`, `FreeListHeap`, `FreeListCounter`, `FreeListOwnership`). The heap of
`free_list_heap_policy` run one call at a time, for any number of threads with a list each: one linked list per
thread over a shared one over the size-checking heap, in a memory of addresses and words. Separately, the shared
list under contention, with its counter modulo 2^64, and who has which block there.

**The configuration store** (`ConfigFile`, `ConfigStore`, `ConfigStoreProof`, `ConfigStoreSets`,
`ConfigStoreValues`, `ConfigStoreCalls`). The file format, and gets, sets and a flusher as a step system. The atom is one step here:
`version` counts the installs and stands for the pointer, which `AtomVersions.PointerIsVersion` justifies for a
program that, like this one, only loads and updates. A set writes to shared entries inside its update function,
before the install, as the source does.

`Arithmetic`, `Counting` and `Wrappers` hold what several of these need.

## Where code and documentation differ

- `reflect_sub_byte` drops the bits above the reflected ones; the description of `reflect_q` at
  boost/include/boost-1_88/boost/crc.hpp:916-921 keeps them. The model follows the code;
  `Bits.SubByteAsDescribed` says when the two agree.
- `crc_optimal` takes any initial remainder, but with reflected input wider than a byte it shifts bits above the
  width into the register. `CrcComputers.ComputersAgree` says that it agrees with `crc_basic` exactly without them.
- `augmented_crc` is documented for every positive width, but uses the byte table, whose index shifts by the width
  minus eight (boost/include/boost-1_88/boost/crc.hpp:2337-2340, 1165-1166). The model takes widths from eight on.
- `MAX` in the printer is written `1 << 64 - 1`, which is 2^63. The iterator works all the same: an empty region is
  never used.
- `set` is announced as free of loops, but a set that meets another one repeats its update function, whose value
  has been moved away by then, and two sets may write the same entry before either is installed
  (server/config_store.cpp:17-22). `ConfigStoreSets.ContendedSetLosesItsValue` and
  `ConfigStoreSets.FirstRoundLosesItsValue` have runs from every state in which a set's value is not what its key
  holds. `ConfigStoreValues.LoneSet` and `ConfigStoreValues.ReturnedValue` say when it is.
- The library's own check of a tree (immer/immer/detail/rbts/node.hpp:975-1013) skips the first child of a regular node
  and accepts a size table below one, which the printer does not look at. `RrbCheck` has a tree for each;
  `RrbCheck.WellFormedIffChecked` says exactly which accepted trees are well formed, as lookup needs them.
- The exchange of the shared free list compares the head alone (immer/immer/heap/free_list_heap.hpp:46), so a node that
  was popped and pushed again in between is taken for the one whose next pointer was read. `FreeListOwnership.TwoOwners`
  is such a run; `FreeListOwnership.PopIsRightOrBreaks` says exactly when a pop goes wrong, and
  `FreeListOwnership.OneOwner` when none does.
- A settings file that ends within its last value is loaded as if the rest were zeros (server/config_store.cpp:81-82);
  `ConfigFile.FileCut` says exactly when.

## Model

| member | source | states |
|---|---|---|
| Bits.ReflectUnsigned | boost/include/boost-1_88/boost/crc.hpp:428-441 | the low `wordLength` bits come out in reverse order, all others unchanged |
| Bits.ReflectInvolution | boost/include/boost-1_88/boost/crc.hpp:428-441 | reflecting the same bits twice gives the word back |
| Bits.MakeByteReflectionTable | boost/include/boost-1_88/boost/crc.hpp:452-462 | bit k of the entry of every byte value, as a number, is bit 7 - k of the value |
| Bits.BitIsDigit | boost/include/boost-1_88/boost/crc.hpp:1836-1847 | bit i of a number is its quotient by 2^i, modulo two |
| Bits.DigitIsBit | boost/include/boost-1_88/boost/crc.hpp:1836-1847 | and the number of a bit sequence has those bits |
| Bits.ReflectSubByte | boost/include/boost-1_88/boost/crc.hpp:499-500 | the low bits are reversed and everything above them is dropped, which is what the code does and not what lines 916-921 say |
| Bits.SubByteAsDescribed | boost/include/boost-1_88/boost/crc.hpp:911-924 | it keeps the other bits, as described, exactly when there are none |
| Bits.SubByteDropsABit | boost/include/boost-1_88/boost/crc.hpp:911-924 | reflecting three bits of 0x80 gives zero, where the description keeps 0x80 |
| CrcDrivers.CrcModuloWordUpdate | boost/include/boost-1_88/boost/crc.hpp:592-623 | on a register wider than the polynomial, the significant bits go through the unaugmented division of the word in reading order, and what was above them is cleared |
| CrcDrivers.AugmentedCrcModuloWordUpdate | boost/include/boost-1_88/boost/crc.hpp:714-739 | the significant bits go through the augmented division, whatever lies above them |
| CrcPolynomial.RegisterIsTheRemainder | boost/include/boost-1_88/boost/crc.hpp:592-623 | the unaugmented register is the remainder of message * x^n + init * x^k modulo x^n + poly, and nothing else is |
| CrcPolynomial.AugRegisterIsTheRemainder | boost/include/boost-1_88/boost/crc.hpp:714-739 | the augmented register is the remainder of message + init * x^k, and nothing else is |
| CrcDivision.StepsLinear | boost/include/boost-1_88/boost/crc.hpp:592-623 | division distributes over exclusive-or of register and dividend together |
| CrcDivision.StepsByTable | boost/include/boost-1_88/boost/crc.hpp:1188-1206 | k bits change a register by a shift corrected with what "leading bits xor dividend" do to a zero register |
| CrcDivision.AugStepsByTable | boost/include/boost-1_88/boost/crc.hpp:1157-1175 | the same for the augmented division, where the leading bits alone select the correction |
| CrcDrivers.MakePartialXorProductsTable | boost/include/boost-1_88/boost/crc.hpp:1013-1032 | each slot of the table holds what the bits of its index do to a zero register, mirrored when reflecting |
| CrcMirror.TableByAugmentedDivision | boost/include/boost-1_88/boost/crc.hpp:1010-1011 | augmented division of the index gives the same masks, which the code leaves to be checked |
| CrcMirror.TablesMirrored | boost/include/boost-1_88/boost/crc.hpp:1013-1032 | the reflected table has the mirror image of every mask of the direct one, at the mirrored index |
| CrcDrivers.MessageBit | boost/include/boost-1_88/boost/crc.hpp:1808-1847 | the bits of a message, from the arithmetic of its bytes: each byte from its highest bit down, or from its lowest up when reflected |
| CrcDrivers.DirectCrcUpdate | boost/include/boost-1_88/boost/crc.hpp:1188-1206 | the table-driven loop divides the whole message; bits above `order` never matter |
| CrcDrivers.DirectAugmentedCrcUpdate | boost/include/boost-1_88/boost/crc.hpp:1157-1175 | the same for the augmented division |
| CrcDrivers.ReflectedCrcUpdate | boost/include/boost-1_88/boost/crc.hpp:1281-1300 | for every register the result is the mirror image of the division of the message, with the bits above the register coming in eight at a time |
| CrcDrivers.CleanWideSteps | boost/include/boost-1_88/boost/crc.hpp:1281-1300 | with nothing above the register that is the division of the message, and nothing stays above it |
| CrcDrivers.ReflectedAugmentedCrcUpdate | boost/include/boost-1_88/boost/crc.hpp:1248-1267 | the same for the augmented division, where the bits above are merged into the bytes |
| CrcDrivers.CleanAugWideSteps | boost/include/boost-1_88/boost/crc.hpp:1248-1267 | with nothing above the register that is the augmented division of the message |
| CrcDrivers.AboveShows | boost/include/boost-1_88/boost/crc.hpp:1281-1300 | any bit above the register changes the remainder once enough zero bytes have brought it in |
| CrcDrivers.SubByteCrcUpdate | boost/include/boost-1_88/boost/crc.hpp:1483-1498 | below eight bits, reflected or not, the byte-wise explicit division is the division of the message |
| CrcDrivers.SubByteAugmentedCrcUpdate | boost/include/boost-1_88/boost/crc.hpp:1454-1469 | the same for the augmented division |
| CrcMirror.RunBothOrientations | boost/include/boost-1_88/boost/crc.hpp:1188-1300 | for every register and message the direct update is the division of the message, and on the mirrored register and bytes the reflected update gives the mirror image of it |
| CrcComputers.CrcBasic.ProcessBits | boost/include/boost-1_88/boost/crc.hpp:1808-1825 | only the lowest `bitLength` bits are divided, the highest of them first |
| CrcComputers.CrcBasic.ProcessBytes | boost/include/boost-1_88/boost/crc.hpp:1838-1921 | the interim remainder is the division of all bytes in the order that input reflection asks for |
| CrcComputers.CrcBasic.Checksum | boost/include/boost-1_88/boost/crc.hpp:1935-1944 | the remainder, reflected if asked, xored and cut to its width |
| CrcComputers.CrcOptimal.constructor | boost/include/boost-1_88/boost/crc.hpp:1973-1979 | the un-mirrored remainder is the one given, and a reflected register wider than a byte keeps what was above it |
| CrcComputers.CrcOptimal.ProcessBytes | boost/include/boost-1_88/boost/crc.hpp:2136-2147 | the un-mirrored remainder goes through the division of the message, with what stands above a wide reflected register coming in |
| CrcComputers.CrcOptimal.Checksum | boost/include/boost-1_88/boost/crc.hpp:2154-2161 | reflecting only where input and output reflection differ gives the prescribed checksum |
| CrcComputers.Crc | boost/include/boost-1_88/boost/crc.hpp:2267-2277 | the one-call form gives the checksum of the table-driven computer, which is the prescribed one if nothing stands above a wide reflected initial remainder |
| CrcComputers.RunBothComputers | boost/include/boost-1_88/boost/crc.hpp:1808-2161 | for every width, polynomial, initial value, reflection pair, final xor and message, however the message is split: the bit-wise computer gives the prescribed checksum, and the table-driven one the same unless bits stand above a wide reflected initial remainder |
| CrcComputers.ComputersAgree | boost/include/boost-1_88/boost/crc.hpp:1808-2161 | the two computers agree on every message exactly when there are no such bits |
| CrcComputers.PrescribedRegisterIsTheRemainder | boost/include/boost-1_88/boost/crc.hpp:2228-2258 | that register is the remainder of the message polynomial, and only it |
| CrcComputers.MessageCoefficient | boost/include/boost-1_88/boost/crc.hpp:2228-2258 | every coefficient of the polynomial that is divided, from the arithmetic of the message bytes and the initial remainder |
| CrcComputers.ChecksumBit | boost/include/boost-1_88/boost/crc.hpp:1935-1945 | bit by bit, the checksum is the register, in reverse order if asked, with the bits of the final value flipped |
| CrcPolynomial.AugmentedMessage | boost/include/boost-1_88/boost/crc.hpp:2300-2309 | augmenting with zeros is the unaugmented algorithm started from the converted initial remainder |
| CrcPolynomial.CheckByAppending | boost/include/boost-1_88/boost/crc.hpp:2319-2323 | a message followed by a candidate leaves zero exactly when the candidate is its checksum |
| CrcComputers.AugmentedCrc | boost/include/boost-1_88/boost/crc.hpp:2328-2341 | the augmented division of the message, cut to its width |
| CrcComputers.CheckAugmented | boost/include/boost-1_88/boost/crc.hpp:2311-2341 | from every start the two results are the augmented divisions of the message with Bits/8 zero bytes and with the candidate in big-endian order appended; the second is zero exactly when the candidate is the first; from a zero start the first is the unaugmented checksum |
| BoxHeap.MakeIsAssignment | immer/immer/box.hpp:81-84 | a new box has its value, every other box keeps its own, counts stay right |
| BoxHeap.CopyIsAssignment | immer/immer/box.hpp:104-108 | copying shares the cell, adds one to its count and touches no live cell but that |
| BoxHeap.SwapIsSwap | immer/immer/box.hpp:97-103 | moving and swapping exchange two boxes and leave all counts right |
| BoxHeap.SwapInView | immer/immer/box.hpp:97-103 | in what a program sees, exactly two boxes trade places, empty ones included |
| BoxHeap.DropIsRemoval | immer/immer/box.hpp:120-126 | destroying a box takes it out of the program's view and leaves all counts right |
| BoxHeap.ReleaseIsInvisible | immer/immer/box.hpp:122-125 | freeing a cell whose count is zero changes no box |
| BoxHeap.ReleaseFrees | immer/immer/box.hpp:122-125 | the cell is gone, and every other cell and every box is as it was |
| BoxHeap.NothingLeaks | immer/immer/refcount/refcount_policy.hpp:27-38 | a cell is due for release exactly when no box points to it |
| BoxHeap.UniqueMeansUnshared | immer/immer/refcount/refcount_policy.hpp:38 | a count of one means no other box points to the cell, and conversely |
| BoxHeap.MutateUnsharedIsAssignment | immer/immer/box.hpp:163-164 | writing the value of an unshared cell changes one box and no other |
| BoxHeap.MutateIsAssignmentOnlyIfUnique | immer/immer/box.hpp:160-168 | writing in place is an assignment to one box exactly when the count is one |
| AtomProof.InitialInv | immer/immer/atom.hpp:35-38 | one box, the atom's, and any number of idle threads |
| AtomProof.StepKeepsInv | immer/immer/atom.hpp:40-75 | under every interleaving no step uses a null or freed cell; counts equal owners, the lock has one holder, and each thread is where its operation says |
| AtomProof.RunKeepsInv | immer/immer/atom.hpp:40-75 | the same over whole runs, with freed addresses handed out again |
| AtomResults.Linearizable | immer/immer/atom.hpp:40-75 | the value is the fold of the commits in commit order; every finished operation has a commit of its own, between its invocation and its return, and returned what that commit says; every commit is that of a finished or a running operation |
| AtomReturns.CallReturns | immer/immer/atom.hpp:40-75 | in every run, once a call has come back the operation recorded for it is the one the caller asked for, with the value of the box it passed; and the box that takes the result holds the recorded result |
| AtomCalls.LoadAlone | immer/immer/atom.hpp:40-44 | a load that is not disturbed ends with the lock free and gives the caller a box with the atom's value, and no other box changes |
| AtomCalls.StoreAlone | immer/immer/atom.hpp:46-50 | a store ends with the value of the passed box in the atom, and that box moved from |
| AtomCalls.ExchangeAlone | immer/immer/atom.hpp:52-59 | an exchange ends with the values of the atom and the passed box traded |
| AtomCalls.UpdateAlone | immer/immer/atom.hpp:61-75 | an update ends with `fn` of the old value in the atom and in the caller's box |
| AtomResults.RealTimeOrder | immer/immer/atom.hpp:40-75 | an operation that returned before another was invoked committed before it, with the result of the value at that point |
| AtomResults.PointerComparisonIsSound | immer/immer/atom.hpp:64-71 | at the comparison equal pointers mean that the value to install is `fn` of the value the atom holds now |
| AtomResults.FailuresArePaidFor | immer/immer/atom.hpp:61-75 | an update fails at most as many comparisons as other threads installed values between its first load and its own commit |
| AtomResults.RetriesArePaidFor | immer/immer/atom.hpp:61-75 | the same for an update that is still trying |
| AtomVersions.PointerIsVersion | immer/immer/atom.hpp:64-71 | where only loads and updates are invoked, the pointers are equal exactly when no other thread has installed a value since this one loaded |
| AtomResults.MutualExclusion | immer/immer/lock/spinlock_policy.hpp:32-48 | in every reachable state at most one thread is between taking the lock and releasing it |
| AtomResults.RvalueUpdateIsAssignment | immer/immer/box.hpp:160-168 | the in-place branch of `update` is, for all boxes of all threads, an assignment to one of them |
| AtomResults.RvalueReplaceAllocates | immer/immer/box.hpp:160-168 | the allocating branch makes a cell for `fn` of the value of the box, and no box changes yet |
| AtomResults.RvalueReplaceIsAssignment | immer/immer/box.hpp:109-119 | the assignment then gives the box that value, and the other boxes keep theirs |
| AtomResults.OtherBoxesKeepTheirValues | immer/immer/box.hpp:97-168 | no step of a thread changes the value in a box of another thread |
| AtomBoxCalls.Created | immer/immer/box.hpp:81-84 | construction changes the view of all boxes by the new one |
| AtomBoxCalls.CopyConstructed | immer/immer/box.hpp:104-108 | copy construction gives the new box the value of the other |
| AtomBoxCalls.Moved | immer/immer/box.hpp:97-103 | a move trades the boxes, empty ones included |
| AtomBoxCalls.Destroyed | immer/immer/box.hpp:120-126 | destruction takes the box out of the view |
| AtomBoxCalls.ConstUpdated | immer/immer/box.hpp:155-158 | `update` of a constant box gives the new box `fn` of its value |
| AtomBoxCalls.CopyAssigned | immer/immer/box.hpp:115-119 | copy assignment, from start to end, gives the box the value of the other |
| AtomBoxCalls.RvalueUpdatedInPlace | immer/immer/box.hpp:160-168 | `update` of an rvalue with an unshared cell ends after one step with `fn` of its value in the box |
| AtomBoxCalls.SharedRvalueUpdated | immer/immer/box.hpp:160-168 | with a shared cell it ends after three, with the same values behind all boxes |
| AtomBoxCalls.CellReleased | immer/immer/box.hpp:122-125 | a cell that no box points to can be freed, and nobody sees it |
| RrbTree.WellFormedLength | immer/tools/gdb_pretty_printers/printers.py:41-57 | a well-formed subtree of some size holds exactly that many elements |
| RrbCheck.CheckedLength | immer/immer/detail/rbts/node.hpp:975-1013 | a tree that the library's check accepts for a size, with array lengths right and the first children it skips checked too, holds that many elements |
| RrbCheck.WellFormedIffChecked | immer/immer/detail/rbts/node.hpp:975-1013 | a tree so accepted is well formed, as lookup needs it, exactly when every size table below a node without one says what the bits of a position say; and where that is so, a well-formed tree is accepted |
| RrbCheck.OthersAreChecked | immer/immer/detail/rbts/node.hpp:999-1010 | in a node without a size table every child but the first is checked, for its share of the size |
| RrbCheck.FirstIsIgnored | immer/immer/detail/rbts/node.hpp:999-1010 | the first of several is not looked at |
| RrbCheck.AllAreChecked | immer/immer/detail/rbts/node.hpp:982-998 | in a node with a size table every child is checked, for the difference of increasing accumulated sizes |
| RrbCheck.ShortFirstChildAccepted | immer/immer/detail/rbts/node.hpp:1005-1006 | the check takes a tree with a short first child for one of three elements |
| RrbCheck.ShortFirstChildIsShort | immer/immer/detail/rbts/node.hpp:1005-1006 | that tree has two elements |
| RrbCheck.TableBelowAccepted | immer/immer/detail/rbts/node.hpp:982-1010 | the check accepts a complete tree with a size table below a node without one |
| RrbCheck.TableBelowMisread | immer/tools/gdb_pretty_printers/printers.py:232-244 | in that tree the bits of a position select an element beyond its leaf |
| RrbTree.FullLength | immer/tools/gdb_pretty_printers/printers.py:147-166 | a full subtree holds as many elements as its level has room for |
| RrbLookup.ScanSizes | immer/tools/gdb_pretty_printers/printers.py:41-45 | the unbounded scan of a size table ends, inside the table |
| RrbLookup.GuessIsLow | immer/tools/gdb_pretty_printers/printers.py:41-45 | the radix guess never passes the child that holds the index, so the scan stops at that child |
| RrbLookup.RelaxedChild | immer/tools/gdb_pretty_printers/printers.py:47-57 | the position passed down, and the size, are those of the child that was found |
| RrbLookup.FullFinds | immer/tools/gdb_pretty_printers/printers.py:147-166 | below a full node the unmasked index finds the leaf around its low part |
| RrbLookup.RegularFinds | immer/tools/gdb_pretty_printers/printers.py:102-145 | shifted and masked slots and counts, with index and size relative to an ancestor, find the leaf |
| RrbLookup.VisitFinds | immer/tools/gdb_pretty_printers/printers.py:221-244 | radix guess, size tables and masks together find the leaf that holds the position, for every well-formed tree |
| RrbLookup.TailOffsetIs | immer/tools/gdb_pretty_printers/printers.py:202-209 | in a list whose tree holds whole leaves and whose tail is neither empty nor larger than a leaf, the offset of the tail is the number of elements in the tree |
| RrbLookup.TailOffsetRightIff | immer/tools/gdb_pretty_printers/printers.py:202-209 | for a tree without a size table it is so exactly in such a list |
| RrbLookup.RegionIsRight | immer/tools/gdb_pretty_printers/printers.py:192-209 | the region holds the position, and its leaf is the stretch of the sequence between its bounds |
| RrbLookup.ListIter.Next | immer/tools/gdb_pretty_printers/printers.py:182-190 | each call yields the next element of the flattened sequence, from the cached leaf or a new one, or the end |
| RrbLookup.ToSequence | immer/tools/gdb_pretty_printers/printers.py:169-209 | a full run yields exactly the flattened sequence |
| Memory.NumberReadBack | net/memory.h:24-29 | a number is read back from its bytes exactly when they have room for it |
| Memory.ByteIsDigit | net/memory.h:24-29 | byte i of a number in memory is its quotient by 256^i, modulo 256 |
| Memory.NumberFromFour | net/memory.h:53-60 | the number in four bytes, lowest first |
| Memory.BytesRewritten | net/memory.h:53-60 | bytes are written again as they were read |
| Memory.MemoryWriter.WriteString | net/memory.h:15-22 | length and characters are appended, or nothing when the length needs more than four bytes |
| Memory.MemoryReader.ReadNumber | net/memory.h:53-60 | the next number and the rest after it, or an error and no progress |
| Memory.MemoryReader.ReadString | net/memory.h:43-51 | the next string and the rest after it; a length past the end fails after the length was consumed |
| Memory.MemoryReader.IsEnd | net/memory.h:69-71 | true exactly when nothing is left |
| Memory.FieldsReadBack | net/memory.h:15-60 | any record of fields is read back from what was written, with everything after it left over |
| Memory.FieldsRewritten | net/memory.h:15-60 | any record that can be read is written again as the same bytes |
| Protocol.Serialize | net/protocol.cpp:14-115 | the three classes write the frame of the command, or throw when a string is too long |
| Protocol.LengthField | net/protocol.cpp:14-28 | the predicted size is the length of the buffer; the length field says so exactly when the size fits in it |
| Protocol.ReadGet | net/protocol.cpp:94-101 | `get_command::read` is the parse of its fields, zero identifiers refused |
| Protocol.ReadSet | net/protocol.cpp:67-72 | `set_command::read` is the parse of its fields |
| Protocol.ReadGetResponse | net/protocol.cpp:124-136 | `get_command_response::read` is the parse of its fields, zero identifiers refused |
| Protocol.Read | net/protocol.cpp:138-186 | each side dispatches exactly the bodies that parse for it, with the error of the first check that fails; a request that is read draws an identifier |
| Protocol.FirstByte | net/protocol.h:11-16 | the type byte is 0 for a get, 1 for a set and 2 for a response |
| Protocol.WireFormat | net/protocol.cpp:14-115 | the bytes of each kind of body: type, key length, key, and the rest in order |
| Protocol.ServerTakes | net/protocol.cpp:153-173 | of written commands the server takes every set and every get with an identifier; a response is an unknown type |
| Protocol.ClientTakes | net/protocol.cpp:175-186 | the client takes every response with an identifier; any other command is not the expected one |
| Protocol.OthersRefused | net/protocol.cpp:153-186 | an empty buffer is out of bounds, and other types are refused whatever follows |
| Protocol.ReadBack | net/protocol.cpp:14-186 | a written body is read as its command exactly when the command has an identifier or needs none and the side takes its type |
| Protocol.Rewritten | net/protocol.cpp:67-186 | whatever is accepted is, byte for byte, what the accepted command is written as |
| Protocol.SurplusRejected | net/protocol.cpp:144-147 | anything after an accepted body is refused |
| Protocol.StrictPrefixRejected | net/protocol.cpp:67-186 | every strict prefix of an accepted body is refused as out of bounds |
| Protocol.RequestIds.Next | net/protocol.cpp:188-195 | the counter moves on, past zero |
| Protocol.IdentifiersRepeat | net/protocol.cpp:188-195 | identifiers are never zero and repeat after 65535 draws, not before |
| Connection.Receiver.OnRead | net/connection.h:118-160 | the handler dispatches every complete frame in the buffer, closes at the first bad one, and otherwise moves the unconsumed end to the front, with room for the next read |
| Connection.Receiver.Receive | net/connection.h:103-167 | one read from start to finish feeds its bytes to the stream |
| Connection.Receiver.Completed | net/connection.h:111-167 | bytes are fed to the stream; an error closes, but for a cancellation and the end of the stream, which end reading |
| Connection.MoveDown | net/connection.h:152-155 | the moved bytes are those that stood at the offset |
| Connection.FirstFrame | net/connection.h:126-158 | what the bytes of a stream say: the first four are the size of the first frame, lowest first, refused below 4 and above 2^20; then the command is dispatched before those of the rest, or refused; or more bytes are awaited |
| Connection.SendableMeans | net/connection.h:126-158 | by kind, which commands a side takes: identifier, string lengths and frame size |
| Connection.FragmentationIrrelevant | net/connection.h:111-160 | however a stream is cut, the same commands are dispatched and the same decision is taken |
| Connection.BetweenReads | net/connection.h:111-160 | between reads the buffer holds exactly the unconsumed end of the stream, no complete frame, less than MAX_MESSAGE_SIZE bytes |
| Connection.FrameCutOut | net/connection.h:123-149 | a frame that is dispatched is the frame of the dispatched command |
| Connection.StreamOfFrames | net/connection.h:123-149 | a stream of whole frames dispatches the commands before the first that the receiver does not take, and closes exactly if there is one |
| SendQueue.TaskRuns | net/connection.h:41-66 | what the posted tasks do: `send` queues the frame and writes it if nothing was queued, `send_next` drops the written frame and writes the next, `close` empties the queue |
| SendQueue.StepKeepsInv | net/connection.h:37-53 | no front or pop of an empty queue; one write in flight or one `send_next` posted exactly when the queue is not empty; no byte lost, doubled or reordered |
| SendQueue.SendNextKeeps | net/connection.h:170-176 | popping what was written and starting the next write keeps that |
| SendQueue.CompleteKeeps | net/connection.h:185-201 | so does a finished write |
| SendQueue.FailKeeps | net/connection.h:191-198 | a failed write is the only one in flight, leaves a prefix of the frames on the wire, and posts the close |
| SendQueue.StoppedKeeps | net/connection.h:37-66 | from then on nothing is written, no empty queue is used, and the close empties the queue |
| SendQueue.FailureCloses | net/connection.h:191-198 | after a failed write the tasks posted by then end with the connection closed, the queue empty and no byte more on the wire |
| SendQueue.SentAreTheCalls | net/connection.h:41-53 | the commands whose frames these results speak of are those that `send` was called with, in order |
| SendQueue.FramesInOrder | net/connection.h:37-53 | in every run the socket is given the frames of the sent commands in the order of the calls, all of them once idle unless a write failed, with never two writers |
| SendQueue.NeverStuck | net/connection.h:37-53 | while there are tasks or a write there is one to go on with |
| SendQueue.WorkDecreases | net/connection.h:170-202 | every such step uses up some of a natural number of steps left |
| Delivery.DeliveredInOrder | net/connection.h:37-202 | end to end, under every schedule and fragmentation: dispatched commands are a prefix of the sent ones, unaltered; when all has arrived, or at closing, those before the first the receiver does not take; it closes for no other reason |
| Delivery.SentAreTheCalls | net/connection.h:37-202 | the sent commands are those that `send` was called with |
| Delivery.AllDelivered | net/connection.h:37-202 | when all has arrived, dispatched and sent are equal exactly if the receiver takes every command |
| Delivery.NeverStuck | net/connection.h:103-113 | the next read always has room, and until all has arrived something can happen |
| Delivery.WorkDecreases | net/connection.h:37-202 | every event of the strand, the sockets and the network uses up some of a natural number |
| Delivery.DeliveredInTheEnd | net/connection.h:37-202 | after any run without a failed write, however it goes on without further calls and failures, it comes to rest after a bounded number of events, and then exactly the commands before the first the receiver does not take have been dispatched |
| Delivery.ComesToRest | net/connection.h:37-202 | from every reachable state there is a way to such a rest |
| FreeListHeap.Heap.DebugAllocate | immer/immer/heap/debug_size_heap.hpp:47-53 | the size is written in front of the block, and nothing else changes |
| FreeListHeap.Heap.DebugDeallocate | immer/immer/heap/debug_size_heap.hpp:55-61 | the assertion on the stored size cannot fail, and the block goes back to malloc |
| FreeListHeap.Heap.GlobalAllocate | immer/immer/heap/free_list_heap.hpp:33-49 | the first node of the list, or a new block when it is empty |
| FreeListHeap.Heap.GlobalDeallocate | immer/immer/heap/free_list_heap.hpp:51-68 | the block becomes the first node, or goes back at the limit |
| FreeListHeap.Heap.LocalAllocate | immer/immer/heap/unsafe_free_list_heap.hpp:47-61 | the same for a thread's list over the global one |
| FreeListHeap.Heap.LocalDeallocate | immer/immer/heap/unsafe_free_list_heap.hpp:63-77 | the same for a thread's list over the global one |
| FreeListHeap.Heap.Clear | immer/immer/heap/unsafe_free_list_heap.hpp:79-88 | every block of the thread's list is passed on |
| FreeListHeap.Heap.NodeAllocate | immer/immer/heap/with_data.hpp:27-32 | the caller gets the bytes after the node |
| FreeListHeap.Heap.NodeDeallocate | immer/immer/heap/with_data.hpp:34-40 | the node before the caller's bytes is given up |
| FreeListHeap.Heap.Allocate | immer/immer/heap/heap_policy.hpp:101-117 | small requests go to the lists, large ones to the debug heap, with the whole new state |
| FreeListHeap.Heap.Deallocate | immer/immer/heap/heap_policy.hpp:101-117 | a release with the size of the request undoes it |
| FreeListRuns.RequestKeeps | immer/immer/heap/unsafe_free_list_heap.hpp:47-61 | a request gives the caller one block that no caller had, and moves no other |
| FreeListRuns.ReleaseKeeps | immer/immer/heap/unsafe_free_list_heap.hpp:63-77 | a release puts that block on the thread's list, else the global one, else back, and moves no other |
| FreeListRuns.RequestServed | immer/immer/heap/heap_policy.hpp:106-116 | a request takes the first block of the thread's list, else of the shared one, else of malloc, where a large one goes at once; the lists and malloc's blocks change accordingly |
| FreeListRuns.ReleaseServed | immer/immer/heap/heap_policy.hpp:106-116 | a released block is put in front of the thread's list if that has room, else of the shared one if that has, else given back |
| FreeListRuns.RequestWrites | immer/immer/heap/with_data.hpp:27-32 | a request resets the node of a small block and writes the size in front of a block from malloc, and no other word |
| FreeListRuns.ReleaseWrites | immer/immer/heap/unsafe_free_list_heap.hpp:66-80 | a release writes the head of the list into the node of the block that is put in front of it, and no other word |
| FreeListRuns.ThreadsHaveLists | immer/immer/heap/heap_policy.hpp:106-116 | in every run exactly the threads have lists, and each can make any request for which malloc has room |
| FreeListRuns.ReleasedBlockIsReused | immer/immer/heap/unsafe_free_list_heap.hpp:47-77 | a released block is the next one handed out, with the lists as before |
| FreeListRuns.DrainIs | immer/immer/heap/unsafe_free_list_heap.hpp:79-88 | exactly as many blocks as there is room for move to the global list, in reverse, the others go back to malloc; none is lost |
| FreeListRuns.CallersApart | immer/immer/heap/heap_policy.hpp:106-116 | no byte belongs to two callers |
| FreeListRuns.RequestSpares | immer/immer/heap/with_data.hpp:27-32 | a request changes no byte of any caller |
| FreeListRuns.ReleaseSpares | immer/immer/heap/with_data.hpp:34-40 | a release changes no byte of any other caller |
| FreeListRuns.WriteKeeps | immer/immer/heap/debug_size_heap.hpp:47-61 | what callers write in their bytes harms neither nodes nor size headers |
| FreeListRuns.NothingLost | immer/immer/heap/heap_policy.hpp:106-116 | in every run each block from malloc is with one caller or at one position of one list; counts are lengths within the limit; headers hold the size of the release to come |
| FreeListCounter.RetainedBound | immer/immer/heap/free_list_heap.hpp:33-68 | with T threads under every interleaving, pushes minus pops never exceed Limit + T - 1, though the counter lags and wraps; with no thread inside, the counter is exact up to wrapping |
| FreeListCounter.BoundIsAttained | immer/immer/heap/free_list_heap.hpp:51-68 | a schedule reaches that bound, so no smaller one holds |
| FreeListCounter.StepKeepsInv | immer/immer/heap/free_list_heap.hpp:33-68 | each atomic step keeps the counter right modulo 2^64 and provides for the threads that passed the check |
| FreeListOwnership.NextKeeps | immer/immer/heap/free_list_heap.hpp:33-68 | no step but the exchange of a pop can lose a block or give it two owners, and that one does not if the next pointer it has read is still the one in the node |
| FreeListOwnership.PopIsRightOrBreaks | immer/immer/heap/free_list_heap.hpp:39-47 | after that exchange every block has one owner exactly if the next pointer was right |
| FreeListOwnership.OneOwner | immer/immer/heap/free_list_heap.hpp:33-68 | where at most one thread at a time is between reading the head and exchanging it, every block has one owner in every run, with releases and writes of callers in between |
| FreeListOwnership.TwoOwners | immer/immer/heap/free_list_heap.hpp:39-47 | without that, two threads and any two blocks have a run after which the head of the list is a block that a caller has |
| ConfigFile.SaveTo | server/config_store.cpp:37-50 | the loop writes the number of pairs and every pair, in the order of iteration |
| ConfigFile.LoadInto | server/config_store.cpp:60-91 | the loop builds the map of the file with all counters at zero, with a value cut short filled up with zeros; no file leaves the map empty; there is no result where one would depend on variables that were never set |
| ConfigFile.FileReadBack | server/config_store.cpp:37-91 | for every map and every order of iteration, loading what was saved gives the map back and uses up the file |
| ConfigFile.FileFormat | server/config_store.cpp:37-50 | byte by byte: the number of pairs, then key size, key, value size and value of each, sizes in eight bytes, lowest first |
| ConfigFile.PairsLoaded | server/config_store.cpp:67-90 | loading a file of pairs with different keys gives each key its value and no other key |
| ConfigFile.LastPairWins | server/config_store.cpp:67-90 | of two pairs with the same key the later one counts |
| ConfigFile.FileCut | server/config_store.cpp:67-90 | a saved file without its last bytes loads exactly when they all belong to the value written last, and then that value ends in as many zeros |
| ConfigStoreProof.EntriesStay | server/config_store.cpp:16-26 | a key once in the map stays in every later one, with the same entry object |
| ConfigStoreProof.GetReadsItsKey | server/config_store.cpp:6-14 | the entry whose reads a get counts is the one the map has for its key, even if sets came in between |
| ConfigStoreCalls.GetReturns | server/config_store.cpp:6-14 | in every run a get that has come back returned the entry of its key exactly if the map it loaded had one, and that is still the entry of the key |
| ConfigStoreCalls.GetAlone | server/config_store.cpp:6-14 | an undisturbed get of a key that the store has returns its entry, counts one read on it and one in the total, and leaves the rest alone |
| ConfigStoreCalls.GetAbsentAlone | server/config_store.cpp:6-14 | one of any other key returns nothing and changes nothing |
| ConfigStoreCalls.SetAlone | server/config_store.cpp:16-26 | an undisturbed set leaves its value and one write more on the entry of the key, a new one if there was none, counts itself in the total, marks the store dirty, and leaves the rest alone |
| ConfigStoreCalls.FlushAlone | server/config_store.cpp:28-58 | an undisturbed flush of a dirty store clears the mark and changes nothing but the file, which then loads to what the store holds |
| ConfigStoreCalls.CleanFlush | server/config_store.cpp:28-30 | a flush of a clean store does nothing |
| ConfigStoreProof.CountersAddUp | server/config_store.cpp:6-26 | with no call under way the entries of the map were read as often as gets found one, and written as often as sets returned plus the rounds repeated after writing an entry of the map |
| ConfigStoreProof.CleanMeansSaved | server/config_store.cpp:16-58 | with no set under way, the flusher idle and the dirty flag clear, the file loads to exactly what the store holds, however writing it was interleaved with sets |
| ConfigStoreProof.StepKeepsInv | server/config_store.cpp:6-58 | every step of every thread and of the flusher keeps all of this |
| ConfigStoreProof.FlushAgrees | server/config_store.cpp:28-58 | while nothing interferes, what has been written so far is what the store holds |
| ConfigStoreValues.LoneSet | server/config_store.cpp:16-26 | in every run in which no other set is under way from the call of a set to its return, gets and flushing going on as they like, the store then holds the value under the key and everything else as before |
| ConfigStoreValues.LastWriterDecides | server/config_store.cpp:17-22 | in every run, what a key holds is what the set that wrote its entry last has left there: its value in its first round, the text of a moved-from string later |
| ConfigStoreValues.InstalledValue | server/config_store.cpp:17-22 | when a set's map is installed, its key holds its value exactly when the set was the last to write the entry and did so in its first round, or with the text of a moved-from string, or when the last writer left the same text |
| ConfigStoreValues.ReturnedValue | server/config_store.cpp:16-26 | the same, exactly, when the set returns |
| ConfigStoreSets.ContendedSetLosesItsValue | server/config_store.cpp:17-22 | from every state two sets can run so that the first one returns and its key holds what a moved-from string holds |
| ConfigStoreSets.FirstRoundLosesItsValue | server/config_store.cpp:17-22 | from every state two sets of a key that the map has can run so that the first returns after one round and the key holds the value of the other, which has not returned |
| ConfigStoreValues.RoundWritesGiven | server/config_store.cpp:17-22 | a round writes the value that the set was given exactly when it is the first round or the value is what a moved-from string holds |

## Left out

- Sockets, executors, timers, idle closing, console output: fragments, partial and failed reads and writes, and scheduling decisions are the environment's steps.
- The send queue after a `close()` that does not come from a failed write: it empties the queue while a `send_next` may still be posted. All sending results hold up to such a close.
- SendQueue.Step: does not offer a command with a string longer than 2^32 - 1 bytes, whose exception leaves the strand; `Protocol.Serialize` models the exception itself.
- Delivery.DeliveredInOrder: is stated for commands of at most 2^32 - 1 bytes, above which the length field is a different number.
- The two dispatchers, `client` and `server` main: they only pass commands on.
- CrcComputers.AugmentedCrc: takes widths from eight on, although the documentation admits smaller ones, because below eight the code shifts by a negative number, which is undefined.
- CrcDrivers.MakePartialXorProductsTable: is called at each update; the source keeps the table in a static, which gives the same values.
- Compile-time selection of the CRC drivers: the model selects by the width at run time.
- Moved-from and null boxes are not offered to callers for reading, copying or passing; the source leaves that undefined.
- Weak memory orders: all steps are sequentially consistent.
- AtomResults.FailuresArePaidFor: bounds failed comparisons, not the turns spent waiting for the spinlock.
- `ChampIter` and the map, set, vector and table headers: a persistent map is a finite map here.
- FreeListHeap.Heap.GlobalAllocate: runs without contention, where the compare-exchange succeeds at once; `FreeListCounter` and `FreeListOwnership` have the contended loop.
- FreeListHeap.Heap.GlobalDeallocate: runs without contention in the same way.
- FreeListHeap.Heap.Clear: unlinks a block before it is passed on, not after, which the layers below cannot tell apart.
- A failing malloc, and sizes near the end of the address space.
- ConfigStoreProof.CountersAddUp: counts without the wrap at 2^64, and leaves out the window counters that `dump_and_reset` clears.
- ConfigFile.LoadInto: has no result where the source would go on with what its uninitialised variables held, and no exception for a size that no string can have.
- A flush that throws leaves the dirty flag clear and a partial file; flushing is modelled for successful writes and one flusher.
