# Verified models of the hard parts of c-labs

Dafny models of the algorithms in this repository that do more than move data around, with proofs of what they
are for. `dafny verify dfyconfig.toml` checks everything. Nothing here executes the original program.

- **Join-tree inference** (`Assignments`, `Sums`, `Tables`, `Trees`, `Messages`, `Schedules`, `Propagation`,
  `Beliefs`, `Odometer`, `Networks`, `Inference`, `UncoveredFamilies`): from conditional probability tables and evidence to the
  posterior distribution of a node. Tables are maps from assignments to reals. The message schedule is a class
  whose fields are the clique tables, the separator tables and the two books of outstanding messages. The end
  result, `Inference.Posterior`, speaks of the network alone.
- **TCP reassembly** (`Serial`, `Reassembly`, `Follower`): sequence numbers, the fragment loop, and the follower
  with its table of sessions, over all runs.
- **Big integers** (`Digits`, `Kernel`, `Shifts`, `Products`, `CopyOnWrite`, `BigintRuns`, `Decimal`, `Printing`,
  `Parsing`): in-place digit arithmetic on arrays, multiplication by shift and add, reference-counted sharing with
  an explicit account of live handles and unfreed records, programs over many objects, decimal text both ways.
- **Sorting** (`Sorting`): insertion, heap and quick sort in place on an array, and the depth of the recursion.
- **Store buffers** (`StoreBuffers`): two threads, a main loop and three semaphores as a state machine in which
  stores wait in per-thread buffers.
- **Geohash** (`Geohash`, `GeoCells`): the mask arithmetic on 64-bit words, and cells over the reals.
- **Base64** (`Base64`) and **serialization** (`Serialization`). `Basics` holds what several modules share.

Conventions. `double` is `real`. Sequence numbers and digits are numbers with explicit reduction; geohash words are
`bv64`. Dereferenced pointers are array indices. `delete` removes a record from the ghost set of unfreed records.
A numeral is canonical when it has one digit or a nonzero leading digit.

Where the code and its documentation differ, the models follow the code:

- `add_sequence_numbers` reduces modulo 2^32 - 1, not 2^32 as its comment says (`Serial.AddIsSerialIff`).
- `long_sub` drops one leading zero digit only, so a difference can be left with leading zeros, which the
  comparisons do not expect (`Kernel.LongSub`, `Kernel.OneStripTooFew`, `Kernel.LeadingZeroMisorders`). Multiplying
  by the 16-bit number 0 leaves them as well (`Kernel.ShortMul`). Programs are therefore followed by value and digit
  count, and `BigintRuns.OutcomeMinimal` says exactly which steps bring leading zeros in.
- The digits are in base 65536, not 65535 as the header says.
- `is_join_tree` does not check that every family fits into a clique. Tables of other families are silently left
  out; `Inference.InitialProduct` says exactly which are used, `UncoveredFamilies.UncoveredMisleads` shows a wrong
  answer, and `Inference.Posterior` asks for all.
- On an upper edge of the range `geohashEncode` yields a cell number one past the last (`GeoCells.HashFitsOffEdges`).
- A new session of the follower is stored under the swapped addresses and ports.

## Model

| member | source | states |
|---|---|---|
| `Assignments.LessIsStrictTotalOrder` | dlib-minimal/lib/dlib/bayes_utils/bayes_utils.h:64-89 | `assignment::operator<` is irreflexive, transitive and total, so it can key an ordered table |
| `Tables.Marginalize` | dlib-minimal/lib/dlib/bayes_utils/bayes_utils.h:388-412 | the loop over one table adds every row into exactly one row of the smaller table: each new row is the sum over its fibre |
| `Tables.Divide` | dlib-minimal/lib/dlib/bayes_utils/bayes_utils.h:1316-1330 | walking two tables of the same keys in step divides row by row, leaving a row alone where the old separator row is 0; a separator not yet written counts as ones |
| `Tables.MultiplyIn` | dlib-minimal/lib/dlib/bayes_utils/bayes_utils.h:1332-1348 | every row of the receiving clique is multiplied by the separator row it restricts to, and no row is lost |
| `Tables.Normalize` | dlib-minimal/lib/dlib/bayes_utils/bayes_utils.h:439-451 | rows keep their proportions and add up to 1 whenever they do not add up to 0; otherwise the failing division is reported |
| `Tables.SharesSumToOne` | dlib-minimal/lib/dlib/bayes_utils/bayes_utils.h:439-451 | normalised rows of a nonzero total sum to 1 |
| `Sums.MarginalTower` | dlib-minimal/lib/dlib/bayes_utils/bayes_utils.h:388-412 | marginalising in two steps is marginalising in one |
| `Tables.MarginalOfProduct` | dlib-minimal/lib/dlib/bayes_utils/bayes_utils.h:1332-1348 | a factor that depends only on the kept variables comes out of a marginal |
| `Trees.RootingExists` | dlib-minimal/lib/dlib/graph_utils/graph_utils.h:1020-1024 | a connected graph without an undirected cycle has a rooting in which every edge joins a node to its parent |
| `Trees.HoldsParent` | dlib-minimal/lib/dlib/graph_utils/graph_utils.h:1026-1032 | where the cliques holding a variable are connected, of two of them the deeper one's parent holds it as well |
| `Messages.SelectsRows` | dlib-minimal/lib/dlib/bayes_utils/bayes_utils.h:1334-1347 | the assignment a clique row is cut down to is always a row of the separator table, so the multiplication finds its factor |
| `Messages.MessageKeepsTables` | dlib-minimal/lib/dlib/bayes_utils/bayes_utils.h:1300-1353 | a message keeps every table over its clique's or separator's assignments, non-negative, and zero wherever a separator row is zero |
| `Messages.MessageCalibrates` | dlib-minimal/lib/dlib/bayes_utils/bayes_utils.h:1300-1353 | a receiver whose marginal was the old separator has the new separator as its marginal after the message, zero rows included |
| `Messages.MessageKeepsJoint` | dlib-minimal/lib/dlib/bayes_utils/bayes_utils.h:1300-1353 | product of clique rows over product of separator rows, read as 0 where a separator is 0, is the same before and after a message at every full assignment |
| `Schedules.StartOk` | dlib-minimal/lib/dlib/bayes_utils/bayes_utils.h:1495-1510 | the initial books satisfy the invariant of the schedule |
| `Schedules.StepKeepsSchedule` | dlib-minimal/lib/dlib/bayes_utils/bayes_utils.h:1517-1567 | every send keeps: i waits for j exactly if j still has to send to i; a node sends to a neighbour only after hearing from all others; reports precede distribution; one entry in the log per directed edge sent |
| `Schedules.RemainingDrops` | dlib-minimal/lib/dlib/bayes_utils/bayes_utils.h:1517-1567 | every send lowers the number of messages outstanding, so the loop ends |
| `Schedules.AllReported` | dlib-minimal/lib/dlib/bayes_utils/bayes_utils.h:1523-1541 | when no node can report towards the root any more, every node has |
| `Schedules.AllDistributed` | dlib-minimal/lib/dlib/bayes_utils/bayes_utils.h:1543-1556 | when no node can distribute any more, every node has |
| `Schedules.IdleMeansDone` | dlib-minimal/lib/dlib/bayes_utils/bayes_utils.h:1517-1567 | when a whole sweep finds nothing to send, exactly one message has gone over every directed edge |
| `Propagation.StepKeepsState` | dlib-minimal/lib/dlib/bayes_utils/bayes_utils.h:1300-1353 | send order and table algebra together: after each step, both ends of an edge that has been used both ways agree with its separator, and a used direction leaves the sender in agreement |
| `Propagation.StepKeepsJoint` | dlib-minimal/lib/dlib/bayes_utils/bayes_utils.h:1300-1353 | the represented joint survives any step of the schedule |
| `Propagation.DoneIsCalibrated` | dlib-minimal/lib/dlib/bayes_utils/bayes_utils.h:1512-1567 | at the end both cliques of every edge have the stored separator as their marginal |
| `Propagation.InitialBooks` | dlib-minimal/lib/dlib/bayes_utils/bayes_utils.h:1497-1510 | the two arrays of neighbour sets are the full neighbourhoods |
| `Propagation.Propagator.constructor` | dlib-minimal/lib/dlib/bayes_utils/bayes_utils.h:1495-1510 | starts from given clique tables with separators not yet written and full books |
| `Propagation.Propagator.PassMessage` | dlib-minimal/lib/dlib/bayes_utils/bayes_utils.h:1300-1353 | marginalise, divide by the old separator, multiply in: one message from `from` to `to`, all other tables untouched |
| `Propagation.Propagator.Send` | dlib-minimal/lib/dlib/bayes_utils/bayes_utils.h:1528-1563 | passes the message and strikes it from both books |
| `Propagation.Propagator.Visit` | dlib-minimal/lib/dlib/bayes_utils/bayes_utils.h:1520-1556 | one node's turn of the sweep keeps the state and the joint, and says whether something was sent |
| `Propagation.Propagator.VisitRoot` | dlib-minimal/lib/dlib/bayes_utils/bayes_utils.h:1557-1565 | the root's turn |
| `Propagation.Propagator.Sweep` | dlib-minimal/lib/dlib/bayes_utils/bayes_utils.h:1517-1567 | one sweep over all nodes; if nothing was sent, nothing could be |
| `Propagation.Propagator.Pass` | dlib-minimal/lib/dlib/bayes_utils/bayes_utils.h:1517-1567 | one turn of the outer loop, a sweep and then the root; it says whether something was sent |
| `Propagation.Propagator.Propagate` | dlib-minimal/lib/dlib/bayes_utils/bayes_utils.h:1512-1567 | ends with every edge calibrated, the joint unchanged, and one message per directed edge |
| `Beliefs.CliquesAreMarginals` | dlib-minimal/lib/dlib/bayes_utils/bayes_utils.h:1365-1373 | in a join tree with calibrated edges every clique table is the marginal of the represented joint |
| `Odometer.Advance` | dlib-minimal/lib/dlib/bayes_utils/bayes_utils.h:1471-1487 | the odometer moves to the assignment of the next rank, or reports that it was at the last one |
| `Odometer.RankInjective` | dlib-minimal/lib/dlib/bayes_utils/bayes_utils.h:1471-1487 | ranks name assignments uniquely, so the odometer visits each exactly once |
| `Odometer.CarryCounts` | dlib-minimal/lib/dlib/bayes_utils/bayes_utils.h:1471-1487 | resetting the run of maximal digits and raising the next one is adding one |
| `Odometer.MaxIsLast` | dlib-minimal/lib/dlib/bayes_utils/bayes_utils.h:1471-1487 | all digits at their maximum is the last rank |
| `Networks.EvidenceFactor` | dlib-minimal/lib/dlib/bayes_utils/bayes_utils.h:1426-1441 | the starting value of a row is 0 if it contradicts evidence on a variable of the clique, else 1 |
| `Networks.StartRow` | dlib-minimal/lib/dlib/bayes_utils/bayes_utils.h:1422-1468 | a row starts as that factor times the node tables the clique takes in |
| `Networks.StartClique` | dlib-minimal/lib/dlib/bayes_utils/bayes_utils.h:1399-1490 | a clique's table holds that value at every legal assignment, and takes exactly the nodes not yet taken whose family it covers |
| `Inference.StartTables` | dlib-minimal/lib/dlib/bayes_utils/bayes_utils.h:1398-1490 | every node is taken by the first clique that covers its family, and by no other |
| `Inference.InitialProduct` | dlib-minimal/lib/dlib/bayes_utils/bayes_utils.h:1379-1490 | the product of the clique tables at any full assignment is the product of all node tables whose family some clique covers, each once, and 0 against the evidence |
| `Inference.CreateJoinTree` | dlib-minimal/lib/dlib/bayes_utils/bayes_utils.h:1360-1569 | for every join tree, every clique table ends as the exact marginal of the product of the node tables whose family some clique covers, with the evidence |
| `Inference.SmallestClique` | dlib-minimal/lib/dlib/bayes_utils/bayes_utils.h:1231-1247 | the smallest clique holding a node, the first of several |
| `Inference.ReadDistribution` | dlib-minimal/lib/dlib/bayes_utils/bayes_utils.h:1253-1265 | marginalise, normalise, read off |
| `Inference.Probability` | dlib-minimal/lib/dlib/bayes_utils/bayes_utils.h:1250-1268 | the distribution of a node given the evidence under those tables, unless the evidence has probability 0 under them |
| `Inference.Posterior` | dlib-minimal/lib/dlib/bayes_utils/bayes_utils.h:1250-1569 | where every family is in some clique, construction and query give the network's own posterior |
| `UncoveredFamilies.UncoveredIsLost` | dlib-minimal/lib/dlib/graph_utils/graph_utils.h:1020-1059 | `is_join_tree` accepts the cliques {0} and {1} of a network in which node 1 copies node 0, and the table of node 1 is taken in by none |
| `UncoveredFamilies.UncoveredMisleads` | dlib-minimal/lib/dlib/bayes_utils/bayes_utils.h:1250-1569 | with the evidence that node 0 is 0, construction and query on it give one half for node 1 being 1, which by the network is impossible |
| `Serial.AddIsSerialIff` | c++11/libtins/tcpcap_stream.cpp:38-46 | the addition, which reduces modulo 2^32 - 1, is the one of RFC 1982 section 3.1 exactly while the sum stays below 2^32 - 1 |
| `Serial.SubtractInvertsAdd` | c++11/libtins/tcpcap_stream.cpp:48-56 | subtraction gives back the distance moved, for all words |
| `Serial.CompareIsForwardDistance` | c++11/libtins/tcpcap_stream.cpp:58-68 | comparison is by forward distance below 2^31 |
| `Serial.CompareAntisymmetricIff` | c++11/libtins/tcpcap_stream.cpp:58-68 | comparison is antisymmetric except across exactly 2^31 |
| `Serial.AddOverPays` | c++11/libtins/tcpcap_stream.cpp:44-46 | past 2^32 - 1 the sum is one too large |
| `Serial.CutOverrunsIff` | c++11/libtins/tcpcap_stream.cpp:168-180 | an arriving segment is cut beyond its end exactly when it reaches 2^32 - 1 and ended one byte short of the expected number |
| `Serial.CutOverrunsAt` | c++11/libtins/tcpcap_stream.cpp:168-180 | one byte at 2^32 - 2 with 0 expected: the cut is two bytes |
| `Serial.LoopCutStaysInside` | c++11/libtins/tcpcap_stream.cpp:188-200 | the loop, which asks for an end that compares as later, never cuts a fragment beyond its end |
| `Serial.WindowIsLinear` | c++11/libtins/tcpcap_stream.cpp:38-68 | in a window below 2^31 that does not wrap, all three are the operations on numbers |
| `Reassembly.InsertArrives` | c++11/libtins/tcpcap_stream.cpp:144-159 | keeping the longer fragment per start number loses no byte: what has arrived grows by exactly the bytes of the new fragment |
| `Reassembly.EraseFirst` | c++11/libtins/tcpcap_stream.cpp:70-78 | erasing the least key moves on to the next one, or stops at the end |
| `Reassembly.MergeOne` | c++11/libtins/tcpcap_stream.cpp:186-219 | one turn slices, drops or takes the fragment under the iterator; which bytes have arrived does not change |
| `Reassembly.Merge` | c++11/libtins/tcpcap_stream.cpp:182-221 | the loop ends, though a slice adds a fragment back, and stops only where the next byte is missing |
| `Reassembly.Process` | c++11/libtins/tcpcap_stream.cpp:161-227 | a segment adds exactly its bytes to those that have arrived, the payload grows by stream bytes in order, and the next byte is missing |
| `Reassembly.Reassemble` | c++11/libtins/tcpcap_stream.cpp:144-227 | for any arrival order, repetition and overlap of segments of one stream, the payload is the longest prefix they cover |
| `Reassembly.ArrivalOrderIrrelevant` | c++11/libtins/tcpcap_stream.cpp:144-227 | reassembling the same segments in two orders, with any repetitions, gives the same payload |
| `Follower.Update` | c++11/libtins/tcpcap_stream.cpp:229-245 | handshake, FIN and RST marks, and reassembly on the side the packet comes from; the other side is untouched |
| `Follower.UpdateKeepsStream` | c++11/libtins/tcpcap_stream.cpp:229-245 | what was handed out and what is buffered stay prefixes of the two byte streams |
| `Follower.CapKeeps` | c++11/libtins/tcpcap_stream.cpp:247-255 | emptying the buffers after they were handed out keeps that |
| `Follower.CallbackKeepsState` | c++11/libtins/tcpcap_stream.hpp:345-387 | no two sessions hold one connection in opposite orientations, identifiers are unique and below the counter, buffers are empty between callbacks, and delivered bytes per side are a prefix of that side's stream |
| `Follower.RunIsSafe` | c++11/libtins/tcpcap_stream.hpp:345-387 | all of that over every run of the follower |
| `Follower.TCPStreamFollower.constructor` | c++11/libtins/tcpcap_stream.hpp:345-387 | no session, nothing delivered |
| `Follower.TCPStreamFollower.Serve` | c++11/libtins/tcpcap_stream.hpp:376-386 | update, hand out, cap, and erase a finished session |
| `Follower.TCPStreamFollower.Callback` | c++11/libtins/tcpcap_stream.hpp:345-387 | one packet makes one step of that run, including packets that are ignored |
| `Kernel.DataRecord.constructor` | dlib-minimal/lib/dlib/bigint/bigint_kernel_1.h:58-69 | zero with room for the given number of digits |
| `Kernel.DataRecord.Copy` | dlib-minimal/lib/dlib/bigint/bigint_kernel_1.h:71-96 | the same digits with more room |
| `Digits.CanonicalUnique` | dlib-minimal/lib/dlib/bigint/bigint_kernel_1.h:26-41 | a number has one numeral without leading zeros |
| `Digits.ShorterIsLess` | dlib-minimal/lib/dlib/bigint/bigint_kernel_1.cpp:1558-1563 | fewer digits means smaller, if the longer numeral has no leading zero |
| `Kernel.ShortAdd` | dlib-minimal/lib/dlib/bigint/bigint_kernel_1.cpp:973-1011 | exact sum, in place or not; no leading zero appears |
| `Kernel.ShortSub` | dlib-minimal/lib/dlib/bigint/bigint_kernel_1.cpp:1015-1060 | exact difference; dropping one zero digit is always enough |
| `Kernel.ShortMul` | dlib-minimal/lib/dlib/bigint/bigint_kernel_1.cpp:1064-1107 | exact product; from a numeral without leading zeros one without is made exactly if the factor is not 0 or there was one digit |
| `Kernel.ShortDiv` | dlib-minimal/lib/dlib/bigint/bigint_kernel_1.cpp:1111-1158 | exact quotient and remainder; dropping one zero digit is always enough |
| `Kernel.LosesOneDigit` | dlib-minimal/lib/dlib/bigint/bigint_kernel_1.cpp:1046-1059 | taking less than 65536 away costs at most one digit |
| `Kernel.QuotientLosesOneDigit` | dlib-minimal/lib/dlib/bigint/bigint_kernel_1.cpp:1117-1128 | dividing by less than 65536 costs at most one digit |
| `Kernel.LongAdd` | dlib-minimal/lib/dlib/bigint/bigint_kernel_1.cpp:1162-1236 | exact sum with either or both operands as the result record, inside its size, with the exact digit count; leading zeros do not appear |
| `Kernel.LongSub` | dlib-minimal/lib/dlib/bigint/bigint_kernel_1.cpp:1240-1299 | exact difference where the subtrahend has no more digits than the minuend, in place or not, with the exact digit count; no leading zero remains if and only if the difference is at most one digit shorter than the minuend |
| `Kernel.OneStripTooFew` | dlib-minimal/lib/dlib/bigint/bigint_kernel_1.cpp:1287-1298 | dropping one digit of 1, 0, 0, which is 65536^2 - (65536^2 - 1), leaves a leading zero |
| `Kernel.IsLessThan` | dlib-minimal/lib/dlib/bigint/bigint_kernel_1.cpp:1550-1584 | digit counts first, then digits from the top; the order of the numbers on numerals without leading zeros |
| `Kernel.LeadingZeroMisorders` | dlib-minimal/lib/dlib/bigint/bigint_kernel_1.cpp:1240-1584 | running the subtraction on those two numbers leaves a 1 of two digits, which the comparison then puts after 2 |
| `Kernel.IsEqualTo` | dlib-minimal/lib/dlib/bigint/bigint_kernel_1.cpp:1588-1618 | equal digits; equality of the numbers on numerals without leading zeros |
| `Kernel.Increment` | dlib-minimal/lib/dlib/bigint/bigint_kernel_1.cpp:1622-1667 | one more, in place or not, with the carry into a new digit |
| `Kernel.Decrement` | dlib-minimal/lib/dlib/bigint/bigint_kernel_1.cpp:1671-1718 | one less for any positive number; dropping one digit is always enough, and the borrow loop stays inside the digits |
| `Shifts.ShiftedWhole` | dlib-minimal/lib/dlib/bigint/bigint_kernel_1.cpp:1467-1508 | the digits made by shifts and ors stand for the number times a power of two |
| `Shifts.DigitJoin` | dlib-minimal/lib/dlib/bigint/bigint_kernel_1.cpp:1493-1498 | the two parts or-ed together do not overlap, so or is addition |
| `Products.ShiftLeft` | dlib-minimal/lib/dlib/bigint/bigint_kernel_1.cpp:1467-1508 | in place or not: the number times 2^n, zero digits below, and one digit more only if needed |
| `Products.AddShifted` | dlib-minimal/lib/dlib/bigint/bigint_kernel_1.cpp:1451-1456 | a set bit: pending shifts are made up and the shifted operand added, inside both records |
| `Products.MultiplyByDigit` | dlib-minimal/lib/dlib/bigint/bigint_kernel_1.cpp:1447-1459 | sixteen bits of one operand digit |
| `Products.LongMul` | dlib-minimal/lib/dlib/bigint/bigint_kernel_1.cpp:1408-1463 | the exact product through delayed shifts and aliased additions, never outside the allocated digits, with the digit count as a function of values and counts; no leading zeros appear |
| `Products.ProductNeeded` | dlib-minimal/lib/dlib/bigint/bigint_kernel_1.cpp:1408-1463 | that count has no leading zero if neither operand has one |
| `Decimal.PlainUnique` | dlib-minimal/lib/dlib/bigint/bigint_kernel_1.cpp:337-419 | a number has one decimal text without superfluous zeros |
| `Decimal.TextFits` | dlib-minimal/lib/dlib/bigint/bigint_kernel_1.cpp:349-357 | `u` digits of base 65536 need at most 5u/4 rounded up groups of four decimal digits |
| `Printing.PrintGroup` | dlib-minimal/lib/dlib/bigint/bigint_kernel_1.cpp:361-401 | one division by 10000 puts four characters in front |
| `Printing.Print` | dlib-minimal/lib/dlib/bigint/bigint_kernel_1.cpp:337-419 | text of all digits with the number as its value, inside the buffer for every record; no superfluous zeros for a numeral without leading zeros |
| `Parsing.ReadGroup` | dlib-minimal/lib/dlib/bigint/bigint_kernel_1.cpp:448-495 | up to four digits, their value and the power of ten they shift by |
| `Parsing.Parse` | dlib-minimal/lib/dlib/bigint/bigint_kernel_1.cpp:423-512 | white space is skipped; without a digit nothing changes and the read fails; else all digits are consumed and the object gets their value, the object read into being destroyed again |
| `Parsing.RoundTrip` | dlib-minimal/lib/dlib/bigint/bigint_kernel_1.cpp:337-512 | printing and reading back, into another object or the same, gives the same number, and the same digits if there were no leading zeros |
| `CopyOnWrite.OnlyHolder` | dlib-minimal/lib/dlib/bigint/bigint_kernel_1.h:43-44 | a count of one means that no other handle sees the record |
| `CopyOnWrite.Bigint.constructor` | dlib-minimal/lib/dlib/bigint/bigint_kernel_1.cpp:18-24 | a handle on a new record for 0; all other handles keep their records and digits |
| `CopyOnWrite.Bigint.Copy` | dlib-minimal/lib/dlib/bigint/bigint_kernel_1.cpp:42-50 | a second handle on the same record, counted |
| `CopyOnWrite.Bigint.Destroy` | dlib-minimal/lib/dlib/bigint/bigint_kernel_1.cpp:54-66 | the record is freed exactly if no other handle is on it |
| `CopyOnWrite.Bigint.Assign` | dlib-minimal/lib/dlib/bigint/bigint_kernel_1.cpp:310-333 | this handle moves to the other's record, with both counts right and the old record freed exactly if no handle is left on it |
| `CopyOnWrite.Bigint.AddAssign` | dlib-minimal/lib/dlib/bigint/bigint_kernel_1.cpp:84-111 | `+=`: the sum in this handle, in place only if nobody else looks; every other handle is unchanged |
| `CopyOnWrite.Bigint.SubtractAssign` | dlib-minimal/lib/dlib/bigint/bigint_kernel_1.cpp:129-147 | `-=`, likewise, with the exact condition for leading zeros |
| `CopyOnWrite.Bigint.MultiplyAssign` | dlib-minimal/lib/dlib/bigint/bigint_kernel_1.cpp:165-185 | `*=`, likewise |
| `CopyOnWrite.Bigint.AddShort` | dlib-minimal/lib/dlib/bigint/bigint_kernel_1.cpp:546-573 | `+=` with a 16-bit operand, likewise |
| `CopyOnWrite.Bigint.SubtractShort` | dlib-minimal/lib/dlib/bigint/bigint_kernel_1.cpp:606-624 | `-=` with a 16-bit operand, likewise |
| `CopyOnWrite.Bigint.MultiplyShort` | dlib-minimal/lib/dlib/bigint/bigint_kernel_1.cpp:658-684 | `*=` with a 16-bit operand, likewise |
| `CopyOnWrite.Bigint.DivideShort` | dlib-minimal/lib/dlib/bigint/bigint_kernel_1.cpp:724-743 | `/=` with a 16-bit operand, likewise |
| `CopyOnWrite.Bigint.RemainderShort` | dlib-minimal/lib/dlib/bigint/bigint_kernel_1.cpp:790-812 | `%=` with a 16-bit operand, likewise |
| `CopyOnWrite.Bigint.PreIncrement` | dlib-minimal/lib/dlib/bigint/bigint_kernel_1.cpp:881-906 | prefix `++`, likewise |
| `CopyOnWrite.Bigint.PostIncrement` | dlib-minimal/lib/dlib/bigint/bigint_kernel_1.cpp:911-925 | postfix `++`: the old record goes to the returned handle, the new number to this one |
| `CopyOnWrite.Bigint.PreDecrement` | dlib-minimal/lib/dlib/bigint/bigint_kernel_1.cpp:929-946 | prefix `--` of a positive number, likewise |
| `CopyOnWrite.Bigint.PostDecrement` | dlib-minimal/lib/dlib/bigint/bigint_kernel_1.cpp:950-964 | postfix `--` of a positive number, likewise |
| `BigintRuns.Step` | dlib-minimal/lib/dlib/bigint/bigint_kernel_1.cpp:18-964 | one operation of any kind on any number of objects does to values and digit counts what it does on numbers, and to no other object anything |
| `BigintRuns.Compare` | dlib-minimal/lib/dlib/bigint/bigint_kernel_1.cpp:290-306 | at any point of a program, what `<` and `==` answer in terms of values and digit counts; without leading zeros, the answers for the numbers |
| `BigintRuns.Execute` | dlib-minimal/lib/dlib/bigint/bigint_kernel_1.cpp:18-964 | every program of constructions, copies, assignments, arithmetic with objects and words, prefix and postfix steps and destructions: the objects show its result on numbers; every record's count is the number of its handles, and exactly the records in use are not freed |
| `BigintRuns.OutcomeMinimal` | dlib-minimal/lib/dlib/bigint/bigint_kernel_1.cpp:129-743 | from numbers without leading zeros one with leading zeros is made if and only if a difference loses two or more digits or a longer number is multiplied by the word 0 |
| `BigintRuns.TidyStaysMinimal` | dlib-minimal/lib/dlib/bigint/bigint_kernel_1.cpp:18-964 | a program without such steps ends without leading zeros |
| `BigintRuns.EnoughDigits` | dlib-minimal/lib/dlib/bigint/bigint_kernel_1.cpp:129-147 | without leading zeros the documented condition of `-=`, a value at least as great, gives the digits the code needs |
| `BigintRuns.SubtrahendTooLong` | dlib-minimal/lib/dlib/bigint/bigint_kernel_1.cpp:129-147 | with leading zeros it does not: 65536^2 - (65536^2 - 1) is a 1 of two digits, which the code cannot take from 2 |
| `Sorting.InsertionSort` | dlib-minimal/lib/dlib/sort.h:395-425 | sorted, a rearrangement of the range, the rest untouched |
| `Sorting.Heapify` | dlib-minimal/lib/dlib/sort.h:286-338 | sifting down makes the subtree a heap and only rearranges |
| `Sorting.RootGreatest` | dlib-minimal/lib/dlib/sort.h:286-338 | the root of a heap is its greatest item |
| `Sorting.HeapSort` | dlib-minimal/lib/dlib/sort.h:451-483 | sorted, a rearrangement, the rest untouched, with the switch to insertion sort on short ranges |
| `Sorting.Partition` | dlib-minimal/lib/dlib/sort.h:184-226 | everything before the returned place is less than the item there, nothing after it is, and the range is rearranged |
| `Sorting.QuickSortMain` | dlib-minimal/lib/dlib/sort.h:236-279 | the same for every depth budget, with nesting bounded by the budget's number of levels |
| `Sorting.QuickSort` | dlib-minimal/lib/dlib/sort.h:430-443 | sorted, a rearrangement, the rest untouched, for every strict weak order |
| `Sorting.LevelsBound` | dlib-minimal/lib/dlib/sort.h:269-270 | each level leaves at most 17/32 of the budget: d < (32/17)^k gives at most k + 1 levels |
| `Sorting.LevelsLogarithmic` | dlib-minimal/lib/dlib/sort.h:242-253 | ranges below 1024^m nest at most 11m + 1 deep |
| `StoreBuffers.StepKeepsSound` | c++11/ordering/ordering.cpp:71-164 | the invariant of the fenced protocol survives every instruction of every thread and every store reaching memory |
| `StoreBuffers.RunKeepsSound` | c++11/ordering/ordering.cpp:71-164 | and so every run |
| `StoreBuffers.FencedNeverDetects` | c++11/ordering/ordering.cpp:71-164 | with the fence `detected` stays 0 in every run; whenever the main loop looks, both threads have run once in the round and the results are (0,1), (1,0) or (1,1) |
| `StoreBuffers.FencedNeverStuck` | c++11/ordering/ordering.cpp:71-164 | no reachable state is a deadlock |
| `StoreBuffers.UnfencedDetects` | c++11/ordering/ordering.cpp:84-92 | without the fence there is a run that detects a reorder in its first round |
| `Geohash.DeinterleaveInverts` | redis/geohash.c:52-110 | separating an interleaved pair gives back the pair, for all 32-bit coordinates |
| `Geohash.InterleaveInverts` | redis/geohash.c:52-110 | interleaving the separated halves gives back the word, for all 64-bit words |
| `Geohash.InterleavePlaces` | redis/geohash.c:47-51 | bits of the first coordinate are in the even places, bits of the second in the odd ones |
| `Geohash.GeoHashBits.MoveX` | redis/geohash.c:224-242 | the carry trick is adding or subtracting one under the mask of the step on the longitude alone, for steps 1 to 32 |
| `Geohash.GeoHashBits.MoveY` | redis/geohash.c:244-260 | the same for the latitude |
| `Geohash.OppositesCancel` | redis/geohash.c:224-260 | opposite moves cancel |
| `Geohash.MovesCommute` | redis/geohash.c:224-260 | moves east-west and north-south commute, and together make the diagonal move |
| `Geohash.GetNeighbours` | redis/geohash.c:262-295 | the eight neighbours are the eight moves on the torus |
| `Geohash.NeighboursDistinct` | redis/geohash.c:262-295 | from step 2 on a cell and its neighbours are nine different cells |
| `GeoCells.CodeNumber` | redis/geohash.c:52-110 | the interleaved word as a number is the Morton number of the coordinates, and separates into them again |
| `GeoCells.MovesAreModular` | redis/geohash.c:224-260 | a move adds one to, or takes one from, the cell number of its axis modulo 2^step, and leaves the other alone unless it moves that too |
| `GeoCells.Encode` | redis/geohash.c:121-151 | fails exactly for a bad step, an empty range or a point outside; else interleaves the cell numbers of latitude and longitude |
| `GeoCells.HashPrefix` | redis/geohash.c:141-149 | the hash at a coarser step is the finer one without its low bits |
| `GeoCells.CellIsInterval` | redis/geohash_helper.c:164-168 | a point has hash h at a step up to 26 if and only if its step-26 hash is in the interval of length 4^(26 - step) that starts at the aligned h |
| `GeoCells.EveryHashTaken` | redis/geohash.c:121-151 | every number of the 2 * step bits is the hash of some point, at steps up to 30 |
| `GeoCells.IntervalIsTaken` | redis/geohash_helper.c:164-168 | every number of the interval of a cell is the step-26 hash of a point of that cell, so the interval is exactly the cell |
| `GeoCells.HashFitsOffEdges` | redis/geohash.c:141-149 | a hash fits into 2 * step bits if and only if the point is on neither upper edge |
| `GeoCells.Decode` | redis/geohash.c:164-194 | fails exactly for the zero hash or an empty range; else the area holds exactly the points in the two cells the hash names, and up to step 31 exactly the points with that hash |
| `GeoCells.EncodeDecode` | redis/geohash.c:121-194 | the area decoded from the hash of a point holds it, and holds another point if and only if the two have the same hash |
| `Base64.Coder.constructor` | dlib-minimal/lib/dlib/base64/base64_kernel_1.cpp:36-148 | the two tables invert each other, and every other character is marked |
| `Base64.GroupRoundTrip` | dlib-minimal/lib/dlib/base64/base64_kernel_1.cpp:216-291 | one to three bytes come back from their four characters, padding included |
| `Base64.Coder.Encode` | dlib-minimal/lib/dlib/base64/base64_kernel_1.cpp:163-303 | the groups of the input in order, cut into lines of 76 characters with the chosen line end between lines and none after the last |
| `Base64.Coder.Decode` | dlib-minimal/lib/dlib/base64/base64_kernel_1.cpp:310-391 | characters outside the alphabet are skipped; an incomplete group at the end is an error; else the bytes of all groups |
| `Base64.ConcatenationDecodes` | dlib-minimal/lib/dlib/base64/base64_kernel_1.cpp:310-391 | any number of encodings one after the other decode to the inputs one after the other |
| `Base64.RoundTrip` | dlib-minimal/lib/dlib/base64/base64_kernel_1.cpp:163-391 | for any number of inputs, each encoded with its own line ends |
| `Serialization.PackInt` | dlib-minimal/lib/dlib/serialize.h:146-299 | byte count with the sign in its top bit, then the significant bytes of the magnitude; signed or not |
| `Serialization.UnpackInt` | dlib-minimal/lib/dlib/serialize.h:201-354 | what the stream holds in two's complement of the type, and the rest of the stream; failure for a short stream or too many bytes |
| `Serialization.UnpackPacked` | dlib-minimal/lib/dlib/serialize.h:146-354 | what was written for one type is recovered by reading as another if and only if the value is one of that type, and exactly those bytes are consumed |
| `Serialization.UnpackFails` | dlib-minimal/lib/dlib/serialize.h:308-333 | reading as another type fails exactly if the magnitude needs more bytes than it has or a negative value meets a type without sign |
| `Serialization.IntReadsBack` | dlib-minimal/lib/dlib/serialize.h:146-354 | an integer codec of any type reads back what one of any other type wrote, for values both have |
| `Serialization.VectorReadsBack` | dlib-minimal/lib/dlib/serialize.h:690-725 | vectors written with one element type and read with another, where the elements read back |
| `Serialization.PairReadsBack` | dlib-minimal/lib/dlib/serialize.h:608-636 | pairs likewise |
| `Serialization.MapReadsBack` | dlib-minimal/lib/dlib/serialize.h:640-686 | maps likewise, in whatever order they are walked |
| `Serialization.SomeOrderWalks` | dlib-minimal/lib/dlib/serialize.h:640-686 | there is an order in which every finite map can be walked through, as the results about maps ask |
| `Serialization.AnyNestingReadsBack` | dlib-minimal/lib/dlib/serialize.h:608-725 | vectors, pairs, maps and integers nested to any depth, written with some integer types and read with others |
| `Serialization.SerializeVector` | dlib-minimal/lib/dlib/serialize.h:690-706 | the loop writes the length and the items in order |
| `Serialization.DeserializeVector` | dlib-minimal/lib/dlib/serialize.h:708-725 | the loop reads that many items, or fails where an item fails |
| `Serialization.ReadPairs` | dlib-minimal/lib/dlib/serialize.h:663-686 | the loop over key and value pairs fills the map with the pairs that are read, or fails where one fails |
| `Serialization.DeserializeMap` | dlib-minimal/lib/dlib/serialize.h:663-686 | a size, then that many pairs, and the map they fill |

## Left out

- Exceptions thrown by allocation, and the exception safety of the operators.
- bigint `long_div`, `/` and `%` between two bigints: they compare remainders by digit count after `long_sub`, which
  can leave leading zeros, so the documented quotient does not follow.
- bigint operators that return a new object instead of changing one, their mixed 16-bit forms, assignment from a
  16-bit number and construction from a 32-bit number: they repeat the kernels and the counting shown.
- Kernel.LongSub: asks that the subtrahend has no more digits than the minuend, which follows from `*this >= rhs` only
  for numerals without leading zeros; with more, the code would run past the digits of the minuend
  (`BigintRuns.SubtrahendTooLong`).
- CopyOnWrite.Bigint.SubtractAssign: asks the same.
- BigintRuns.Step: asks the same of a `-=`.
- BigintRuns.Execute: asks the same of every `-=` in the program; `BigintRuns.EnoughDigits` gives it from the values
  while there are no leading zeros.
- bigint_kernel_2: its multiplication is not part of this model.
- bigint streams: the text is a string and the position in it; stream state beyond success and failure is not modelled.
- Follower.RunIsSafe: does not promise that all data is delivered, because `cap` drops buffered fragments.
- Reassembly.Reassemble: asks for a stream that does not reach sequence number 2^32 - 1 and is shorter than 2^31,
  because the addition is wrong beyond; `Serial.CutOverrunsIff` says which arriving segments are then cut beyond their
  end.
- Packet parsing and capture: packets arrive as records of addresses, ports, numbers, flags and data.
- Sorting.QuickSort: indices are unbounded, so the doubling of an index in `heapify` does not wrap.
- StoreBuffers.FencedNeverDetects: the random delay is any interleaving; threads are taken to start once.
- GeoCells.Encode: steps 31 and 32 are excluded, because the code shifts a 32-bit one by that much, and so is a range
  whose two ends are one nonzero number, because the code divides by its length; rounding of `double` is not modelled.
- GeoCells.EncodeDecode: excludes the same.
- GeoCells.Decode: steps from 64 on are excluded, because the code shifts a 64-bit one by that much.
- GeoCells.CellIsInterval: steps above 26, where the alignment shifts by a negative amount, are excluded.
- Geohash.OppositesCancel: for the moves by one that the code makes.
- Geohash radius searches, distances and bounding boxes: trigonometry.
- Base64.Coder.Decode: text without byte 255, for which the decoding table has no entry; what was already written
  when an incomplete group is found is not part of the result.
- Serialization.UnpackInt: a length byte that says 0, which the writer never makes, is excluded, because the code then
  reads outside its buffer.
- Serialization.PackInt: the least value of a signed type is excluded, because it has no positive counterpart.
- Serialization of strings, booleans, floating-point numbers and arrays.
- Gibbs sampling, Mersenne Twister, and learning of tables from samples.
- create_join_tree: the join tree is an input, with the conditions `is_join_tree` checks.
- rgeohash.c, hashtable.c and the samples around sockets, HTTP, databases and user interfaces.
