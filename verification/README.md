# Proofs about a repository of systems programs

This project models the parts of the repository that carry the most state and arithmetic, and proves what they
promise. It has seven pieces.

* **The company system** (`CompanySystem`, `Registry`, `IndexFamily`, `StaffIndex`, `Placement`, `Roster`, `Tally`).
  Employees belong to companies, companies acquire each other. The system keeps a hash table by id, a tree by salary
  and two counters for those without a salary, once for everybody and once for each company; all copies of one
  employee share one company number. The invariant ties all of these to one plain list of employees and to the
  union-find structure, and every operation keeps it.
* **The ranked tree** (`TreeShape`, `TreeLaws`, `TreeLinks`, `TreeSpine`, `TreeQueries`, `TreeMerge`, `TreeBump`,
  `RankedTree`). An AVL tree of linked nodes with parent pointers, changed in place. A value of type `Shape` mirrors
  the links; `Rep` says that the heap spells it out with every height, size and grade sum exact.
* **The hash table** (`HashTable`), chained, rebuilt in place by three mutually recursive operations.
* **The union-find structure** (`Forest`, `Acquisition`, `UnionFind`) with values on its paths, against a naive model
  that has one leader and one standing per company.
* **The thread pool** (`Protocol`, `ProtocolLaws`, `RequestQueue`, `Server`). `Protocol` has one step for each critical
  section or action outside; the laws hold in every interleaving. `Server` runs the steps on linked queues and is
  proved to take exactly these steps.
* **Hardware** (`RiscV` with `Isa` and `RiscVLaws`, `RiscVWords`, `RiscVCore`, and `Multiplier`). Combinational logic is pure; clocked registers
  are fields of a class. A multicycle core simulates the instruction set of sections 2.3 to 2.6 of the RISC-V
  Unprivileged ISA manual, and two multipliers compute exact products.
* **Three algorithms in place**: `ByteCopy` over one memory with any overlap, `Coalitions` by backtracking, and
  `Encryption` with `SBoxTable` and `SBoxField`, which are SubBytes and ShiftRows of sections 5.1.1 and 5.1.2 of FIPS 197 for any size.

Where the code and its surroundings leave something open, the code was followed: `Employee` compares by salary and id
with `<` but by id alone with `==`, and the tree's search uses both; a union adds the premium to the acquirer's group
even if the other root survives; a promotion by nothing or less succeeds.

## Model

| member | source | states |
|---|---|---|
| CompanySystem.System.Init | Data Structures/System for managing a companies complex(upgraded & large scale)/library2.cpp:85-101 | A system of `k` companies for `k >= 1`, nothing otherwise. At the start nobody is employed, company number i leads itself and is worth i, and the invariant `Valid()` holds. |
| CompanySystem.System.constructor | Data Structures/System for managing a companies complex(upgraded & large scale)/system.h:19-30 | Every company leads itself and is worth its own number; all indexes are in order, fresh and empty. |
| CompanySystem.System.AddEmployee | Data Structures/System for managing a companies complex(upgraded & large scale)/library2.cpp:103-164 | Which of the three results comes when; on success exactly one record is new, without salary, and its group is that of the company, whichever company leads the group by then. Every index, counter and company number agrees afterwards (`Valid()`): each company in use holds exactly the employees whose shared number it is, the others nobody, the system's own indexes everybody. |
| CompanySystem.System.RemoveEmployee | Data Structures/System for managing a companies complex(upgraded & large scale)/library2.cpp:167-204 | The record and its group membership go, nothing else changes; a missing id fails. `Valid()` is kept. |
| CompanySystem.System.EmployeeSalaryIncrease | Data Structures/System for managing a companies complex(upgraded & large scale)/library2.cpp:279-356 | Exactly one salary grows, by exactly the given amount; the other fields of that record, all other records and the groups stay. `Valid()` is kept, so the tree of the system and that of the company hold the employee at the new salary, and an employee paid for the first time leaves the counters. |
| CompanySystem.System.PromoteEmployee | Data Structures/System for managing a companies complex(upgraded & large scale)/library2.cpp:358-415 | Exactly one grade grows, by exactly the given amount, in the tables, the trees, their sums and the counters alike; a bump that is not positive changes nothing and succeeds. |
| CompanySystem.System.AcquireCompany | Data Structures/System for managing a companies complex(upgraded & large scale)/library2.cpp:206-277 | No record changes. Company by company: whoever was led by the acquirer's leader gains `factor` times the other leader's standing, whoever was led by the other leader is led by the acquirer's, and nothing else changes; the employees follow, whichever root survives. Refused exactly for bad numbers, a factor that is not positive, or companies of one group. `Valid()` is kept. |
| CompanySystem.System.AverageBumpGradeBetweenSalaryByGroup | Data Structures/System for managing a companies complex(upgraded & large scale)/library2.cpp:450-499 | The average grade of all employees of the group (or of the system) with `lower <= salary <= higher`, those without a salary included; a failure exactly if there are none. |
| CompanySystem.System.SumOfBumpGradeBetweenTopWorkersByGroup | Data Structures/System for managing a companies complex(upgraded & large scale)/library2.cpp:417-447 | The grade sum of the `m` best-paid employees of the group; a failure exactly if fewer than `m` are paid. |
| CompanySystem.System.CompanyValue | Data Structures/System for managing a companies complex(upgraded & large scale)/library2.cpp:501-522 | The company's standing in the naive model; bad numbers are refused. |
| CompanySystem.RegroupedBy | Data Structures/System for managing a companies complex(upgraded & large scale)/uf.h:92-116 | Whichever root survives a union, every company in use is led afterwards by the acquirer's leader if it was in either group, and by its old leader otherwise. |
| CompanySystem.LiveAfter | Data Structures/System for managing a companies complex(upgraded & large scale)/uf.h:92-116 | A union takes exactly one company out of use, and none if both were in one group. |
| CompanySystem.RollOfGroup | Data Structures/System for managing a companies complex(upgraded & large scale)/library2.cpp:429-433 | What a company in use holds is exactly the roll of its group, however many acquisitions have happened. |
| CompanySystem.NumbersMoved | Data Structures/System for managing a companies complex(upgraded & large scale)/library2.cpp:59-80 | Adjusting the numbers of the acquirer's employees gives every employee of the acquired company the acquirer's number and leaves all other numbers alone, although all copies of a record share one number. |
| CompanySystem.System.CompanyExact | Data Structures/System for managing a companies complex(upgraded & large scale)/library2.cpp:103-415 | What `Valid()` says of one company: exactly the employees with its number are listed; if it leads its group, table, tree and counters agree with that list; if it has been acquired, its table and tree are empty. |
| Placement.RollsMoved | Data Structures/System for managing a companies complex(upgraded & large scale)/library2.cpp:267-275 | Moving everyone of one company changes the rolls of exactly these two companies: one is the union of both, the other empty. |
| StaffIndex.Index.Raise | Data Structures/System for managing a companies complex(upgraded & large scale)/library2.cpp:279-356 | One group's tree, table and counters after a raise are those of the list with one salary changed. |
| StaffIndex.Index.Dismiss | Data Structures/System for managing a companies complex(upgraded & large scale)/library2.cpp:181-203 | The same after someone has left; the counters that stop at zero never have to. |
| StaffIndex.Index.Promote | Data Structures/System for managing a companies complex(upgraded & large scale)/library2.cpp:369-413 | The same after a promotion. |
| StaffIndex.Index.Absorb | Data Structures/System for managing a companies complex(upgraded & large scale)/library2.cpp:231-276 | The same after a whole group has come over; what the other group keeps is empty, and the result owns nothing that is not new or was owned by one of the two. |
| StaffIndex.Discounted | Data Structures/System for managing a companies complex(upgraded & large scale)/company.h:44-56 | Decreasing the counters never meets the stop at zero: they stay the exact count and grade sum of those without a salary. |
| StaffIndex.AdjustCompanyID | Data Structures/System for managing a companies complex(upgraded & large scale)/library2.cpp:59-80 | The walk over all chains changes exactly the numbers equal to the target, and the table stays what it was. |
| StaffIndex.Index.InRange | Data Structures/System for managing a companies complex(upgraded & large scale)/library2.cpp:457-491 | Root totals minus the two walks, plus the counters if the range starts at zero, are exactly the count and grade sum of the employees in the range. |
| Roster.BetweenIsBand | Data Structures/System for managing a companies complex(upgraded & large scale)/library2.cpp:488-491 | The entries of a tree in a salary range are exactly the paid employees in the range: same count, same grade sum. |
| Roster.BandFromZero | Data Structures/System for managing a companies complex(upgraded & large scale)/library2.cpp:462-471 | A range from zero consists of those without a salary and the paid employees in it. |
| Roster.TreeAfterMerge | Data Structures/System for managing a companies complex(upgraded & large scale)/library2.cpp:243-251 | The merge of two groups' trees holds exactly the paid employees of both, and their keys never meet. |
| Roster.TreeHoldsRanking | Data Structures/System for managing a companies complex(upgraded & large scale)/ranked.h:673-712 | A tree that holds the paid employees of a group holds them in the one order there is, so the query about the best-paid depends on the employees only, not on the tree. |
| Roster.RankingExact | Data Structures/System for managing a companies complex(upgraded & large scale)/employee.h:56-77 | That order: each paid employee once, with the current record and grade, by salary, and by id among equal salaries. |
| RankedTree.Tree.InsertKey | Data Structures/System for managing a companies complex(upgraded & large scale)/ranked.h:391-455 | In-place insertion refines insertion into the sorted sequence: links, parents, heights, sizes and grade sums exact, heights balanced; a key whose id the search meets is refused. |
| RankedTree.Tree.Remove | Data Structures/System for managing a companies complex(upgraded & large scale)/ranked.h:458-645 | In-place removal, the exchange with the successor included, refines removal from the sorted sequence for every key, and every cache is exact again; an id the search does not meet fails. The tree is valid afterwards if and only if the search met nothing or the key was stored at its salary; otherwise nothing has moved, the counter is one too small, and exactly the grade sums on the descent lack the grade. |
| TreeLaws.DeleteValid | Data Structures/System for managing a companies complex(upgraded & large scale)/ranked.h:458-635 | For any key, the rebalanced tree after a deletion is balanced and sorted, and its in-order sequence is the old one without the key; it is one node smaller if the key is stored at its salary, and the same tree otherwise. |
| TreeLaws.DeletionExact | Data Structures/System for managing a companies complex(upgraded & large scale)/ranked.h:458-645 | The counter that a removal decrements whenever the search meets the id stays exact if and only if the search meets nothing or the key is stored at its salary. |
| TreeLaws.DeletionMissesOne | Data Structures/System for managing a companies complex(upgraded & large scale)/ranked.h:638-645 | The failing input: in a tree with one employee the same id at another salary is met by the search, nothing is deleted, and the counter is 0. |
| TreeLaws.SearchExact | Data Structures/System for managing a companies complex(upgraded & large scale)/ranked.h:246-255 | What the search by identity means: a hit carries the id; after a miss the key is not stored at its salary. |
| RankedTree.Tree.ArrayToTree | Data Structures/System for managing a companies complex(upgraded & large scale)/ranked.h:714-765 | The tree built from the middle holds exactly the given stretch of the sequence and is balanced at every node as built. |
| RankedTree.Tree.MergeTree | Data Structures/System for managing a companies complex(upgraded & large scale)/ranked.h:768-880 | A new tree with every link and cache exact that holds the linear merge of both contents, copied; it is sorted, and so valid, if and only if no key stands in both. The old nodes are not touched. |
| TreeMerge.MergeSorted | Data Structures/System for managing a companies complex(upgraded & large scale)/ranked.h:833-858 | The linear merge of two sorted sequences is strictly sorted if and only if no key stands in both. |
| RankedTree.Tree.SpecialInOrderAssist | Data Structures/System for managing a companies complex(upgraded & large scale)/ranked.h:673-712 | The one descent adds up exactly the grades of the `len` largest keys. |
| RankedTree.Tree.BumpNode | Data Structures/System for managing a companies complex(upgraded & large scale)/library2.cpp:395-412 | Setting a node's grade and walking up to the root restores every grade sum; only this entry changes. |
| TreeQueries.AverageBumpEmpsLower | Data Structures/System for managing a companies complex(upgraded & large scale)/library2.cpp:15-35 | One descent counts the employees paid less than the bound and adds up their grades, exactly. |
| TreeQueries.AverageBumpEmpsHigher | Data Structures/System for managing a companies complex(upgraded & large scale)/library2.cpp:37-57 | One descent counts the employees paid more than the bound and adds up their grades, exactly. |
| TreeQueries.RangeSplit | Data Structures/System for managing a companies complex(upgraded & large scale)/library2.cpp:488-491 | Everything without what lies below and above is exactly what lies in the range, in number and grade sum. |
| HashTable.HashTable.Find | Data Structures/System for managing a companies complex(upgraded & large scale)/hashTable.h:278-293 | The item of a key, if and only if the key is in the map. |
| HashTable.HashTable.Insert | Data Structures/System for managing a companies complex(upgraded & large scale)/hashTable.h:219-259 | Insertion into the map, refusing duplicates, through any rebuild; the size doubles exactly when the table is about to be full. |
| HashTable.HashTable.ReHash | Data Structures/System for managing a companies complex(upgraded & large scale)/hashTable.h:172-217 | A rebuild keeps the map; it ends with the same size or twice it, never a smaller one, because a shrink expands again while it copies. |
| HashTable.HashTable.CopyArray | Data Structures/System for managing a companies complex(upgraded & large scale)/hashTable.h:261-276 | The copy of an array holds exactly its pairs, even if the table expands in the middle of it. |
| HashTable.HashTable.Remove | Data Structures/System for managing a companies complex(upgraded & large scale)/hashTable.h:295-331 | Removal from the map, including the rebuild it may start; the size does not change. |
| HashTable.HashTable.MergeHTs | Data Structures/System for managing a companies complex(upgraded & large scale)/hashTable.h:333-358 | The union of both maps; the other table is untouched. |
| HashTable.CopiedIs | Data Structures/System for managing a companies complex(upgraded & large scale)/hashTable.h:261-276 | At every point of the walk over another table, the map is the old one plus exactly the keys passed so far. |
| UnionFind.UnionFind.FindAssist | Data Structures/System for managing a companies complex(upgraded & large scale)/uf.h:80-87 | The root of the group; every node of the walk hangs at most one step below it afterwards. Compression changes no group, root, standing or union value, and leaves stored sizes exact. |
| UnionFind.UnionFind.Union | Data Structures/System for managing a companies complex(upgraded & large scale)/uf.h:92-116 | The new leader and the new standing of every company, spelled out company by company, whichever root survives; result 1, 2 or 3 says which did, and every other company keeps its root. |
| UnionFind.UnionFind.CompanyStanding | Data Structures/System for managing a companies complex(upgraded & large scale)/library2.cpp:513-518 | The sum of the values up to the root is the standing in the naive model. |
| Acquisition.FirstUnion | Data Structures/System for managing a companies complex(upgraded & large scale)/uf.h:98-107 | With the acquirer's root on top: the acquirer's group gains `factor` times the standing of the other leader, nobody else gains, sizes stay exact and paths logarithmic. |
| Acquisition.SecondUnion | Data Structures/System for managing a companies complex(upgraded & large scale)/uf.h:108-115 | With the other root on top the outcome is the same, company by company. |
| Acquisition.ShrinkEnds | Data Structures/System for managing a companies complex(upgraded & large scale)/uf.h:30-51 | After a compression walk every stored subtree size is exact again. |
| Forest.DepthIsLogarithmic | Data Structures/System for managing a companies complex(upgraded & large scale)/uf.h:30-87 | A node at depth d lies in a group of at least 2 to the power d companies. |
| RequestQueue.Queue.Enqueue | Opereting Systems C++/Creation of Multi-thread WebServer using Locks/webserver-files/queue.c:39-53 | Appends, unless the queue is full; then it is left as it is. |
| RequestQueue.Queue.Dequeue | Opereting Systems C++/Creation of Multi-thread WebServer using Locks/webserver-files/queue.c:55-67 | Takes the oldest value; -1 from an empty queue. |
| RequestQueue.Queue.DequeueByIndex | Opereting Systems C++/Creation of Multi-thread WebServer using Locks/webserver-files/queue.c:69-96 | Takes the value at an index out of the middle, head and tail included. |
| RequestQueue.Queue.QueueFindIndex | Opereting Systems C++/Creation of Multi-thread WebServer using Locks/webserver-files/queue.c:133-144 | The first index of a value, or the size. |
| Server.Server.Enter | Opereting Systems C++/Creation of Multi-thread WebServer using Locks/webserver-files/server.c:100-155 | The first critical section of an accept iteration is exactly one step of the protocol, under all four policies, and keeps its invariant. Below the limit the newcomer is queued last and a worker woken; at the limit it sleeps, or is closed, or the oldest waiting request is closed for it, or half of the waiting ones, rounded up, with the rest in order. |
| Server.Server.Reenter | Opereting Systems C++/Creation of Multi-thread WebServer using Locks/webserver-files/server.c:106-155 | A woken acceptor tests the limit again: it queues its connection if there is room, and sleeps again otherwise; nothing is closed. |
| Server.Server.Take | Opereting Systems C++/Creation of Multi-thread WebServer using Locks/webserver-files/server.c:163-181 | A worker's first critical section: it sleeps exactly if nothing waits, and otherwise moves the oldest waiting request to the end of the worker queue; no other worker changes. |
| Server.Server.Done | Opereting Systems C++/Creation of Multi-thread WebServer using Locks/webserver-files/server.c:186-193 | Its second one: one copy of its own descriptor leaves the worker queue, wherever that is, and the acceptor does not sleep on. |
| ProtocolLaws.NoDeadlock | Opereting Systems C++/Creation of Multi-thread WebServer using Locks/webserver-files/server.c:94-197 | In every reachable state, while the acceptor sleeps or a request waits, some worker has something useful to do. |
| ProtocolLaws.NoLostWakeup | Opereting Systems C++/Creation of Multi-thread WebServer using Locks/webserver-files/server.c:153-167 | While a worker sleeps, at least as many awake workers compete for the mutex as requests wait. |
| ProtocolLaws.QueuesExact | Opereting Systems C++/Creation of Multi-thread WebServer using Locks/webserver-files/server.c:94-197 | Waiting and handled requests never exceed the limit, the worker queue is exactly what the busy workers hold, descriptor reuse included, and the acceptor sleeps only at exactly the limit. |
| ProtocolLaws.NoSilentRefusal | Opereting Systems C++/Creation of Multi-thread WebServer using Locks/webserver-files/server.c:153-178 | No enqueue is silently refused: an accept iteration ends with its connection queued last or closed. |
| ProtocolLaws.EnterExact | Opereting Systems C++/Creation of Multi-thread WebServer using Locks/webserver-files/server.c:100-155 | In every run, what each accept iteration closes and what it leaves in the queue, policy by policy: nothing under block, the newcomer under drop-tail, the connection that has waited longest under drop-head, and under drop-random exactly half of the waiting ones, rounded up, the others keeping their order. |
| ProtocolLaws.EachClosedOnce | Opereting Systems C++/Creation of Multi-thread WebServer using Locks/webserver-files/server.c:111-184 | Each accepted connection is closed at most once, and only while it is open. |
| ProtocolLaws.DispatchedInOrder | Opereting Systems C++/Creation of Multi-thread WebServer using Locks/webserver-files/server.c:94-178 | What has been dispatched is a subsequence of what has arrived. |
| ProtocolLaws.FifoUnderBlock | Opereting Systems C++/Creation of Multi-thread WebServer using Locks/webserver-files/server.c:104-110 | Under the blocking policy, dispatched and waiting requests together are all that have arrived, in order. |
| RiscVCore.Core.Clock | Numerical Systems - assembly and ModelSim/simuletion3/rv_dp.sv:54-189 | Every edge samples all registers at once, block by block. Counted from reset, at each fetch the visible state is that of the instruction set after as many instructions as have been finished, and as many cycles have passed as these instructions take together. |
| RiscVLaws.StepSimulates | Numerical Systems - assembly and ModelSim/simuletion3/rv_ctl.sv:71-198 | From fetch to fetch every supported instruction does what the instruction set says, in 5 (LW, SW2), 4 (SW, R-type) or 3 (BEQ) cycles, and is not back at fetch before. |
| RiscVLaws.ProgramSimulates | Numerical Systems - assembly and ModelSim/simuletion3/rv_ctl.sv:71-198 | For every program: after the cycles of its first n instructions the core is at fetch, in the state of the instruction set after n steps. |
| RiscVLaws.EveryFetch | Numerical Systems - assembly and ModelSim/simuletion3/rv_ctl.sv:71-198 | And no other fetch exists: each one in the run stands at the end of some number of instructions, in the state after as many steps. |
| RiscVLaws.FetchesExact | Numerical Systems - assembly and ModelSim/simuletion3/rv_ctl.sv:71-198 | Within the run of a supported program the core fetches after k cycles if and only if k is what some number of its first instructions take together. |
| RiscVLaws.JumpExact | Numerical Systems - assembly and ModelSim/simuletion3/rv_ctl.sv:199-208 | A jump-and-link links correctly in three cycles, but goes to the target of a branch with the same bits; that is right if and only if the two immediates agree. |
| RiscVLaws.JumpMisses | Numerical Systems - assembly and ModelSim/simuletion3/rv_ctl.sv:199-208 | An input: a jump by 8 whose bits say 0 when read as a branch. |
| RiscVWords.BitwiseExact | Numerical Systems - assembly and ModelSim/simuletion3/rv_dp.sv:155-168 | XOR, OR and AND, bit by bit: each of the 32 bits of the result depends on the same bits of the operands as it should. |
| RiscVWords.SignedIs | Numerical Systems - assembly and ModelSim/simuletion3/rv_dp.sv:147-151 | The signed comparison reads a word as two's complement. |
| RiscVWords.RegisterIs | Numerical Systems - assembly and ModelSim/simuletion3/rv_dp.sv:95-115 | Register 0 reads as 0, whatever is written to it; any other reads as what was written last. |
| RiscVWords.WordAddressIs | Numerical Systems - assembly and ModelSim/simuletion3/rv_sim.sv:36-44 | Two addresses name the same memory word exactly if they agree in bits 11 to 2. |
| RiscVWords.FieldsExact | Numerical Systems - assembly and ModelSim/simuletion3/rv_dp.sv:87-90 | Each field of an instruction is read back from where the format puts it. |
| RiscVWords.DecodeEncode | Numerical Systems - assembly and ModelSim/simuletion3/rv_dp.sv:120-130 | Decoding undoes encoding: every supported instruction, with every register and every immediate its format can express, is read as the manual writes it. |
| RiscVWords.JumpImmediate | Numerical Systems - assembly and ModelSim/simuletion3/rv_dp.sv:120-130 | The J immediate of the datapath is the offset that the J format encodes, for every even offset within its range. |
| RiscVWords.ShiftRuns | Numerical Systems - assembly and ModelSim/simuletion3/rv_dp.sv:157-163 | A shift instruction takes four cycles and shifts by the whole second register. |
| RiscVWords.ShiftsAgree | Numerical Systems - assembly and ModelSim/simuletion3/rv_dp.sv:157-163 | When that is what the manual says: for amounts below 32, or where the result is 0 anyway; for the arithmetic right shift only if the number is not negative or the amount is 0. |
| RiscVWords.UnknownSkipped | Numerical Systems - assembly and ModelSim/simuletion3/rv_ctl.sv:76-86 | An unknown instruction is skipped in two cycles and changes nothing but the program counter. |
| Multiplier.LongMultiplication | Numerical Systems - assembly and ModelSim/simuletion2/mult32x32_arith.sv:25-68 | The four shifted partial products add up to the product, and no partial sum leaves 64 bits. |
| Multiplier.PlainOnce | Numerical Systems - assembly and ModelSim/simuletion2/mult32x32_fsm.sv:30-91 | One multiplication: exactly four busy cycles, then idle with the exact product, whatever happens to start. |
| Multiplier.FastOnce | Numerical Systems - assembly and ModelSim/simuletion2/mult32x32_fast_fsm.sv:32-112 | The fast one: 2, 3 or 4 busy cycles, as the upper halves ask for, then idle with the exact product. |
| Multiplier.PlainExact | Numerical Systems - assembly and ModelSim/simuletion2/mult32x32_fsm.sv:30-91 | After every run from reset with stable operands, an idle machine holds the exact product of its last operands, after 4 busy cycles. |
| Multiplier.FastExact | Numerical Systems - assembly and ModelSim/simuletion2/mult32x32_fast_fsm.sv:32-112 | So does the fast one, after 2, 3 or 4 busy cycles. |
| Multiplier.PlainRests | Numerical Systems - assembly and ModelSim/simuletion2/mult32x32_fsm.sv:39-45 | After every run from reset, an idle machine keeps the exact product for as long as start stays low. |
| Multiplier.FastRests | Numerical Systems - assembly and ModelSim/simuletion2/mult32x32_fast_fsm.sv:41-47 | So does the fast one. |
| ByteCopy.Copy | Computer organization and programming - Assembly/Work with registers - assembly functions/ex2.asm:5-95 | For every count and every overlap the destination holds the old source, reversed for a negative count, and no other byte changes. |
| ByteCopy.CopyBack | Computer organization and programming - Assembly/Work with registers - assembly functions/ex2.asm:46-95 | Two reversing copies with a stop in a second region restore the order of the bytes in a third, whatever overlaps, and in place they undo each other. |
| Coalitions.CountCoalitions | C - level1 BuiltUp/Sorting Algoritems , BackTracking Recurstion/BackTracking - Recursion.c:32-47 | The backtracking counts exactly the coalitions that extend the choice so far, and restores the flags. |
| Coalitions.Count | C - level1 BuiltUp/Sorting Algoritems , BackTracking Recurstion/BackTracking - Recursion.c:32-62 | From all-false flags: the number of all coalitions with more than 60 seats whose members get along. |
| Encryption.Encryption | C - level1 BuiltUp/Arrays and Histograms/hw2q3.c:72-120 | The in-place iterations leave in cell (i, j) the byte from column (j + k i) mod n, substituted k times. |
| Encryption.EncryptionInvertible | C - level1 BuiltUp/Arrays and Histograms/hw2q3.c:113-120 | With a permutation as table, encryption can be undone, for every size and iteration count. |
| SBoxTable.ProgramInvertible | C - level1 BuiltUp/Arrays and Histograms/hw2q3.c:35-51 | The program's own table is such a permutation. |
| SBoxField.SubByteStandard | C - level1 BuiltUp/Arrays and Histograms/hw2q3.c:35-51 | Every entry of the program's table is the affine image of the reciprocal in the field of 256 elements, as the standard defines it. |

## Left out

- RankedTree.Tree.Remove: requires the stored grade for a key that is stored. With another grade the source subtracts that grade from the sums on the descent all the same, and the model does not say which of them end up wrong; no caller in `library2.cpp` passes one (`library2.cpp:185-188` and `335-343`).
- RequestQueue.Queue.DequeueByIndex: requires an index below the number of values, because the source follows a null pointer otherwise. The test in `queueFindIndex` that can never hold (`queue.c:137-139`) is not modelled.
- CompanySystem.System: the operations of one call are grouped by index, first the system's, then the company's, where the source alternates between both; the fields of the source's `System` and `Company` that make up an index are one class `Index`. Printing of results with one decimal place, and a system that is a null pointer, are not part of this model.
- UnionFind.UnionFind: the array of node pointers is written by the constructor only and is therefore a constant sequence; each node's company is `CompanySystem.System.indexes` at the node's number.
- Multiplier: the operands are required to be stable while the machine is busy; what comes out otherwise is not stated.
- RiscV: the jump-and-link instruction and the shifts take part in `Cycle`, but the simulation theorem is about the other instructions; `RiscVLaws.JumpExact` says what JAL does instead, `RiscVLaws.JumpMisses` gives an input where that is wrong, and `RiscVWords.ShiftsAgree` when its shifts are right. Reset, memory wait states and the simulation top level are not modelled. The blocking assignment to `b` in `rv_dp.sv:113` is taken as a register update.
- Numbers: C++ integers and sums are unbounded here, except in ByteCopy (a 32-bit count), RiscV and Multiplier (wrap-around at 32 and 64 bits), and doubles are real numbers; overflow and rounding are not modelled. `new_grade` and the other `int` copies of a `long long` grade in `deleteN` are not truncated.
- Memory: failed allocations, destructors and frees are left out; a node that is freed is simply no longer reachable. Rotations, long methods and loops are cut into named pieces with contracts of their own.
- The server's request handling, statistics, arrival times, descriptors of the listening socket and policies with an unknown name are not part of this model; the kernel hands out descriptors that are not in use, random numbers are parameters of the step, and a signal may wake any sleeper, or a sleeper may wake by itself.
- `getRank` in `ranked.h` is not used by anything and is left out.
- The older company manager with `avl.h`, the allocators, the chess system, the matrices and the other exercises of the repository are left out: they are weaker copies of what is modelled here, or would add easy members only.
