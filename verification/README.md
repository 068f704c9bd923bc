# Verification of the Scheme compiler, its virtual machine, and the collector

Models and proofs, in Dafny 4.11, of two programs of this repository: the SECD Scheme system in
`scheme12_bignum_boost_debug.cpp` (expanders, compiler, virtual machine, `equal?`, lists, printer and reader) and the
core of the Boehm collector 8.2.12 (sequential and parallel marking, the large-block allocator, the header index,
finalization, and root exclusions). `dafny verify dfyconfig.toml` checks all of it.

What the source computes with expressions and recursion is modelled by functions and lemmas; what it does step by step
to objects, tables and arrays is modelled by classes and loops, each method proved against a specification.

## The Scheme system

| files | content |
|---|---|
| `datum`, `symbols`, `expand` | data, names, and the expanders |
| `weight`, `core` | the measure that decreases at every expansion; desugaring into a core language of ten constructs |
| `codegen`, `machine` | code of a core term; the machine as a transition function over 21 instructions |
| `compiler`, `vm` | the one-pass compiler and the machine as objects with fields, as in the source |
| `listing` | lists in the heap, followed pair by pair, and what a called closure finds in its frame |
| `reference`, `safety`, `simulation`, `iteration`, `theorems`, `discipline` | a CEK evaluator, and how machine runs follow it |
| `surface`, `direct` | source forms as a programmer reads them, the parser, and their direct semantics |
| `hygiene`, `lowering`, `rules`, `shapes`, `elabscopes`, `elabclauses`, `elabloops`, `elaboration` | which forms are hygienic, and what desugaring makes of a form |
| `agreement`, `directsim`, `meaning`, `honest`, `unhygienic` | desugared programs do what their forms say; and two that do not |
| `forms`, `wellformed`, `parsing` | which expressions are well formed; exactly those desugar, and they have forms |
| `walks`, `printing` | `list?`, `length`, `equal?`, and the printer as it runs |
| `grammar`, `reading`, `reader` | the written form of data; reading as a function of the text, exact for it; the reader, and what it makes of printed data |

Hypotheses that the theorems share:

- **Ready** (of a reference store and a machine store): the stores correspond, closure by closure and continuation by
  continuation, and every variable of every closure and continuation has its slot. Empty stores are ready, and
  StoresStayReady says that every program leaves ready stores.
- **Formed** (of an expression): it is well formed; exactly the well-formed expressions compile (WellFormed.DesugarsExactly).
- **Clean** (of a form and a counter): hygiene, see Findings. It is computed from the form and the counter alone.
- **MemoryOk** (of the direct semantics' memory and a reference store): frames, globals, heap, procedures and
  continuations correspond, and `cons`, `append`, `memv`, `list->vector` and `:undef` have their usual values.
- **Honest** (of primitives) and **MemoryNamed**: primitives give back no procedures other than those in their arguments
  or in the heap. Without it a primitive might guess the number of a procedure that only the expansion has.

Primitives are an arbitrary function from a name, arguments and the heap to a value and a heap, or an error, so every
theorem holds for all of them. Closures, continuations and frames are numbered by their place in the store, as the
source allocates them; the direct semantics draws the same numbers as the expansion, so that values can be compared by
equality. Arguments are evaluated from left to right before the operator, only `#f` is false, a missing alternative
gives NIL, and a primitive called by TAPP falls through to the RTN that follows.

## The collector

| files | content |
|---|---|
| `marker` | `GC_mark_some` as a state machine, with overflow and recovery |
| `parallel` | helpers that mark in parallel, one atomic step at a time, in any interleaving |
| `freelists`, `heapmodel`, `heaplists`, `blockindex`, `allocator` | linked free lists; blocks that tile a heap; the index of headers and forwarding counts; the allocator over both |
| `finalize` | the finalizer table with its chains, the queue, and the two passes |
| `exclusions` | the sorted table of excluded root ranges |

## A convention

Some predicates are stated about every element of a sequence of one element (`forall k :: k in [x] ==> P(k)`). That says
no more than `P(x)`, but the verifier unfolds it only where a lemma (named `Opened`, `Unseal`, `Shown`, `Unfolded` or the
like) asks it to, which keeps proofs that merely pass such a fact along small.

## Findings

1. **Generated names can capture the program's.** `make_gensym` (`scheme12_bignum_boost_debug.cpp:1007-1010`) makes
   ordinary symbols, and `expand_or`, `expand_cond`, `expand_case` and `expand_do` (`scheme12_bignum_boost_debug.cpp:1154-1306`)
   bind them around the program's own expressions. With the counter at 0, `(let ((or1 5)) (or #f or1))` says 5 and
   evaluates to #f.
2. **A named let sees itself in its initial values.** `expand_let` (`scheme12_bignum_boost_debug.cpp:1064-1103`) puts
   them inside the letrec that binds the loop's name. `(let f ((y f)) y)` evaluates to the procedure f; by section
   4.2.4 of R5RS it refers to an outer f.

The condition, for all programs, is `Hygiene.Clean(f, g)`: nothing binds or assigns `cons`, `append`, `memv`,
`list->vector` or `:undef`; each name that desugaring f draws from counter g on is free nowhere in the part of f it is
drawn for; and a named let's name is no syntactic keyword and not free in its initial values. It is the exact condition
for the expansion to be what the form says (Elaboration.DesugaringElaborates, in both directions), and it suffices for
meaning to be preserved (Meaning.DesugaringPreservesMeaning). No condition on the text alone is necessary for that:
a captured variable does no harm in a run where both variables have the same value, as CaptureChangesMeaning shows for
x = #f, nor in one where it is never evaluated.

## Model

| member | source | states |
|---|---|---|
| CompilerObject.Compiler.Comp | scheme12_bignum_boost_debug.cpp:1384-1651 | For every expression, environment, position and code block: one pass appends to the block exactly the code of the core term that the expression stands for, and leaves the gensym counter where desugaring leaves it; or it reports the same syntax error. The object with its counter and code buffer does what the two-stage description (desugar, then generate) says. |
| CompilerObject.Compiler.CompileTop | scheme12_bignum_boost_debug.cpp:2031-2036 | Compiling a program gives the core term's code outside tail position, in no scope, ended by STOP, if and only if the program is well formed, and otherwise the error of desugaring it. This is the code that the theorems about machine runs speak of. |
| WellFormed.DesugarsExactly | scheme12_bignum_boost_debug.cpp:1034-1651 | For every expression and counter: it compiles if and only if it is well formed, which `Forms.Formed` says of the text alone, form by form (operand counts, binding lists, clauses, bodies with internal defines, templates, a named let whose name is a keyword, what an expander ignores), without expanding anything. No valid form is refused, and every error is accounted for. |
| CodeGen.FindLocation | scheme12_bignum_boost_debug.cpp:973-981 | The two nested loops find the same frame and slot as the recursive definition of lexical scope: the innermost frame with the name, and the first slot in it. |
| Weights.ExpansionDecreases | scheme12_bignum_boost_debug.cpp:1064-1306 | Every derived form outweighs its expansion, in one measure for all nine expanders, however much larger the expansion is as a tree. With ScanOutDecreases it makes desugaring and compiling every finite expression terminate. |
| Weights.ScanOutDecreases | scheme12_bignum_boost_debug.cpp:1316-1348 | Moving the leading defines of a body into a letrec does not raise the weight of the body, although the letrec feeds back into the expanders. |
| Elaboration.DesugaringElaborates | scheme12_bignum_boost_debug.cpp:1064-1348 | An exact condition for hygiene: every well-formed expression that has a form desugars, and its core term is what its form becomes (no drawn name captures another variable, no name that expansions rely on is rebound) if and only if the form is clean from the counter's value on, which is read off the form before anything is expanded; and then the counter ends where the form says. |
| Parsing.FormedParses | scheme12_bignum_boost_debug.cpp:1064-1348 | Every well-formed expression has a form, unless some part of it is a letrec without a body or a named let whose name is a keyword (Parsing.Regular). |
| Meaning.ProgramsAreWritten | scheme12_bignum_boost_debug.cpp:1064-1651 | So the theorems below on meaning hold for every well-formed, regular program whose form is clean: nothing else is assumed of it. |
| Meaning.DesugaringPreservesMeaning | scheme12_bignum_boost_debug.cpp:1064-1348 | For every clean program, all primitives and corresponding memories: the desugared program passes through states that correspond to every state of the direct evaluation of its let, named let, let*, letrec, and, or, cond, case, do, quasiquote and internal defines, and stops only where that stops, with the same value or error. |
| Meaning.CompilingPreservesMeaning | scheme12_bignum_boost_debug.cpp:1064-1651 | From program text to machine: the compiled code halts with a value exactly when the direct evaluation of the form says that value, unless a primitive makes up a procedure on the way. |
| DirectSimulation.StepAgrees | scheme12_bignum_boost_debug.cpp:1064-1348 | One step at a time, for every kind of form and every continuation: from corresponding states, each step of the direct evaluation is matched by some steps of evaluating what its form became, to corresponding states again. |
| Honesty.HonestNeverForges | scheme12_bignum_boost_debug.cpp:1804-1868 | With primitives that return only procedures they were given or that the memory holds, no direct evaluation ever applies a procedure that is not the program's. |
| Honesty.HonestlyCompiled | scheme12_bignum_boost_debug.cpp:1064-1651 | With such primitives: compiled code halts with v if and only if the form says v. |
| Unhygienic.CaptureChangesMeaning | scheme12_bignum_boost_debug.cpp:1154-1164 | For every counter and every literal x, `(let ((orN x)) (or #f orN))`, orN being the name drawn next, is not clean; it says x, and what it desugars to evaluates to #f. |
| Unhygienic.NamedLetSeesItself | scheme12_bignum_boost_debug.cpp:1064-1103 | `(let f ((y f)) y)` with f unbound is an error by section 4.2.4 of R5RS; it is not clean, and what it desugars to evaluates to the procedure f. |
| VirtualMachine.VM.Step | scheme12_bignum_boost_debug.cpp:1738-2028 | One turn of the loop over s, e, c, pc, d and the store, for each of the 21 instructions, does to the fields exactly what the transition function does, with the same error or halt. Listing.ElementsExact, Listing.AllocatesList and Listing.ClosureEntered say, without those functions, what the ones it calls do. |
| VirtualMachine.VM.Run | scheme12_bignum_boost_debug.cpp:1738-2028 | The loop, for any number of turns, is that many transitions. |
| VirtualMachine.VM.Enter | scheme12_bignum_boost_debug.cpp:1836-1868 | Entering a closure: an arity error exactly if there are not as many arguments as it takes; otherwise the new innermost frame holds the first arguments, one a fixed parameter, and, if there is a rest parameter, last a list of exactly the others, made of new pairs; the environment, code and dump are the closure's and the caller's. |
| Listing.ArgumentsBound | scheme12_bignum_boost_debug.cpp:1836-1858 | The same of the function that binds arguments: which slots hold what is said by following cdrs in the new heap, and no pair that was there is changed. |
| VirtualMachine.ListElements | scheme12_bignum_boost_debug.cpp:626-644 | The loop that collects a list's elements and remembers the pairs passed ends on every heap, and returns vs if and only if following cdrs from the value meets pairs with the cars vs and then NIL; circular and dotted lists are errors. |
| Listing.ElementsExact | scheme12_bignum_boost_debug.cpp:626-644 | What the function that every semantics uses for the arguments of `apply` finds are exactly the elements met by following cdrs. |
| Listing.AllocatesList | scheme12_bignum_boost_debug.cpp:612-619 | A new list holds exactly the values given, in order, in pairs that were not there before; all others are unchanged. |
| Correctness.ProgramCorrect | scheme12_bignum_boost_debug.cpp:1738-2028 | For every core term and every pair of related stores, running its code (the code of CompileTop) against evaluating the term by a CEK evaluator: each stops exactly when the other does, with the same value or error and related stores; so one diverges exactly when the other does. |
| Correctness.ExpressionCorrect | scheme12_bignum_boost_debug.cpp:1384-1651 | Wherever the code of an expression stands, with any registers around it and any matching environment: outside tail position the machine goes on after that code with s plus the value, the same e and d; in tail position it is where RTN of the value leads. |
| Correctness.NeverStuck | scheme12_bignum_boost_debug.cpp:1738-2028 | No state of any run of compiled code, resumed continuations included, underflows the stack, misses a frame or slot, joins on an empty dump, packs a bad count or runs off the end of its code. |
| Simulation.Sync | scheme12_bignum_boost_debug.cpp:1738-2028 | One machine instruction at a time: from a state that represents a configuration, each instruction is matched by some steps of the CEK evaluator; by none only for RTN and JOIN, which then shorten the dump, so that the machine cannot spin. |
| Soundness.NextFits | scheme12_bignum_boost_debug.cpp:1746-1764 | Evaluation keeps every frame in range of every environment and continuation that mentions it, and never fails for want of a slot. |
| Correctness.StoresStayReady | scheme12_bignum_boost_debug.cpp:2038-2044 | The stores a program leaves satisfy what the next program needs, so the theorems hold for a whole session of programs. |
| Discipline.JoinDiscipline | scheme12_bignum_boost_debug.cpp:1897-1903 | In every reachable state, JOIN finds on top of the dump what a SEL pushed, with that stack plus one value in s and that environment in e, although it restores neither. |
| Discipline.ReturnDiscipline | scheme12_bignum_boost_debug.cpp:1869-1882 | In every reachable state, RTN finds on top of the dump what a call pushed, and a value on the stack. |
| Discipline.TailDiscipline | scheme12_bignum_boost_debug.cpp:1804-1896 | At every TAPP, TCALLCC and SELR the dump's top is a call's and the next instruction is RTN, so that a primitive called in tail position may fall through. |
| Discipline.TailCallsKeepDump | scheme12_bignum_boost_debug.cpp:1804-1903 | From any reachable state on, through any number of instructions, calls that have returned (nested to any depth), tail calls, and resumptions of continuations captured on the way: the body reached has the base dump of the first, and at every TAPP and TCALLCC the dump is exactly that. |
| Discipline.ContinuationsPersist | scheme12_bignum_boost_debug.cpp:214-238 | Whatever a program does, to any point of its run or to its end, every continuation already captured stays as it was. |
| Discipline.ResumeExact | scheme12_bignum_boost_debug.cpp:1820-1831 | Resuming k with v, from any state of any run whose store still begins with the continuations that were there after the capture, gives exactly the captured s plus v, e, c, pc and d; and so every time. |
| Discipline.ResumedLater | scheme12_bignum_boost_debug.cpp:1820-1831 | The same across programs: k captured by one program, any sequence of programs in between (each ended or stopped by an error), and resumed by a later one. |
| Discipline.NormalReturnIsResume | scheme12_bignum_boost_debug.cpp:1957-2022 | When the receiver of call/cc returns v normally, the machine reaches the state that k resumed with v does: at once for CALLCC, and for TCALLCC after the one RTN that the resumed code executes next. |
| Walks.IsProperList | scheme12_bignum_boost_debug.cpp:2290-2311 | The tortoise and the hare stop on every finite cons graph, and answer true exactly if following cdrs reaches NIL. |
| Walks.Length | scheme12_bignum_boost_debug.cpp:2470-2480 | `length` ends for every value: the number of pairs of a proper list, and otherwise the error (here -1). |
| Walks.Comparer.Equal | scheme12_bignum_boost_debug.cpp:2319-2423 | One comparison, inside others: it ends on every heap, leaves `visited` exactly as it found it, and if true gives a relation that is closed under taking parts up to the pairs being compared. |
| Walks.ValueEqual | scheme12_bignum_boost_debug.cpp:2425-2428 | `equal?` answers true only for bisimilar values; when the first value has no cycles it is exactly structural equality; and circular values are equal whenever some map takes each part of the first to one part of the second that matches it, the values themselves to each other. |
| Printing.Printer.ToString | scheme12_bignum_boost_debug.cpp:656-779 | Printing ends for every value, circular or not, with `visited` as before; an acyclic value prints as the tree it unfolds to, however its parts are shared. |
| ReadPrint.Reader.ReadExpr | scheme12_bignum_boost_debug.cpp:782-961 | For every text, against a grammar of written data (Grammar): if the text starts, after any white space and comments, with the written form of a datum (words, numerals, `#t` and `#f`, string literals with escapes, quotations of all four kinds, lists, dotted lists and vectors, with any layout inside), exactly that datum is returned and reading stops right after it; a datum returned is so written where it was read; and nothing is found exactly where there is only layout. |
| Reading.ReadingIsExact | scheme12_bignum_boost_debug.cpp:782-961 | The same of the function on texts that the reader computes: reading and the grammar define each other, so written data are unambiguous, and a text is an error exactly if it neither starts with a written datum nor is all layout. |
| ReadPrint.PrintedIsRead | scheme12_bignum_boost_debug.cpp:656-961 | Any printed datum whose strings and symbols are plain, before the end or something that ends a word, is read back up to its end: as itself if it has no truth values and no empty lists as elements, which come back as the symbols TRUE, FALSE and NIL that they are printed as. |
| Printing.PrintAndRead | scheme12_bignum_boost_debug.cpp:656-961 | The round trip from a heap: an acyclic value of integers, plain strings and symbols, vectors and non-empty lists is read back from its printed text as the same tree, truth values and empty lists as elements as the symbols they are printed as, and no further text is read. |
| Marker.FullMark | gc-8.2.12/mark.c:267-386 | A full mark ends, for every heap, stack size, number of entries dropped by each overflow, and answer to each request for a larger stack; and if it did not give up, every root's target is marked, the marked set is closed under pointers, and nothing unreachable is marked. It gives up only if the static roots do not fit on the stack. |
| Marker.MarkState.MarkSome | gc-8.2.12/mark.c:267-386 | One step of the state machine keeps the invariant (every unscanned word of a marked object is covered by the stack, by the rest of the scan or by a rescan to come) and comes nearer the end in a lexicographic measure; it reports the end only in the idle state with an empty stack and a complete mark. |
| Marker.MarkState.MarkFrom | gc-8.2.12/mark.c:516-778 | Scanning from the stack keeps the invariant, and if it marks nothing new it leaves less work. |
| Marker.MarkState.PushObject | gc-8.2.12/mark.c:484-499 | Pushing on a full stack drops the top entries, makes the state invalid and asks for a larger stack; otherwise the entry is added and nothing else changes. |
| Marker.MarkState.PushNextMarked | gc-8.2.12/mark.c:1862-1877 | The next block with marked objects is pushed and the scan moves on, or ends. |
| Marker.MarkState.PushNextUncollectable | gc-8.2.12/mark.c:1923-1952 | The same for uncollectable blocks; the blocks skipped need no scan. |
| ParallelMarker.TerminationIsSafe | gc-8.2.12/mark.c:978-1106 | In every interleaving of any number of helpers: once one has left, nothing is on the shared stack and nobody holds work, then and ever after; and unless an overflow made the state invalid, the marked set is closed under pointers. |
| ParallelMarker.MarkingIsExact | gc-8.2.12/mark.c:847-1106 | And when a helper has left, the marked set is the least set closed under pointers that has what was marked at first, unless an overflow made the state invalid. |
| ParallelMarker.MarksAreReachable | gc-8.2.12/mark.c:744-967 | In every state of every run, overflow or not, every set that has what was marked and stacked at first and is closed under pointers has everything that is marked: nothing unreachable ever is. |
| ParallelMarker.OverflowInvalidates | gc-8.2.12/mark.c:484-499 | The state becomes invalid exactly by a push for which there is no room. |
| ParallelMarker.NeverDeadlocked | gc-8.2.12/mark.c:978-1072 | In every state of every run, if a helper has entered and not left, some helper can take a step that changes its own registers; and once nobody is active, a waiting helper leaves if the shared stack is used up and otherwise goes back to work. |
| ParallelMarker.NoWorkIsLost | gc-8.2.12/mark.c:847-967 | In every state of every run that is not invalid, each unscanned word of a marked object is on the shared stack or in some helper's hands, through stealing, returning, racing and marking. MarksAreReachable is the other bound. |
| ParallelMarker.CountersAreExact | gc-8.2.12/mark.c:978-1072 | The active count is the number of helpers that may hold or find work, and the helper count that of helpers that have not left, in every state of every run. |
| FreeLists.IndexForMonotone | gc-8.2.12/allchblk.c:85-92 | A larger size never selects an earlier free list. |
| FreeLists.Lists.RemoveAt | gc-8.2.12/allchblk.c:301-321 | Relinking heads, hb_next and hb_prev takes exactly h off list i, and takes its bytes off the count; the other lists and their links are as before. |
| FreeLists.Lists.Add | gc-8.2.12/allchblk.c:371-400 | The block becomes the first of its list, linked both ways, and is counted. |
| FreeLists.Lists.Replace | gc-8.2.12/allchblk.c:632-661 | The second part of a split block takes the place of the whole in its list, linked both ways. |
| Allocator.Heap.AllocNth | gc-8.2.12/allchblk.c:743-926 | The search of one list keeps the heap consistent and every block in use as it is. With any pages black-listed: it fails if and only if no block on the list can meet the request, although it passes over blocks whose successor fits better and drops blocks on the way; and it returns the first page of such a block, or for a request that avoids black-listed pages the first page from which on those exposed are clean, or the first page for a very large request in a block without enough clean ones. Only the search of the list of single pages drops blocks. |
| Allocator.Heap.Alloc | gc-8.2.12/allchblk.c:679-732 | The allocator is consistent (tiling, coalescing, each free block once on the list of its size, exact byte counts, used plus free equal to the heap size) and exact, for any black list, policy and heap: it fails if and only if the request is too large or no free block is eligible (large enough, clean enough, and an exact fit or on a list that the policy lets it split: all, none, or those from which on enough bytes are free); it takes an exact fit if one can meet the request; and a request that avoids black-listed pages never exposes one, but for the very large. |
| Allocator.Heap.Limit | gc-8.2.12/allchblk.c:679-732 | How far up the lists a policy lets an allocation split blocks: exactly the lists up to the limit are permitted. |
| Allocator.Complete | gc-8.2.12/allchblk.c:679-732 | The order of the search is safe: if no block on the list of the size's index fits exactly, and no block on the later lists (on that list too, where sizes share it) is large enough, then no free block of the heap is. |
| Allocator.Heap.Consider | gc-8.2.12/allchblk.c:743-926 | One block of the list, with any pages black-listed: a page is chosen only if the block can meet the request, and it is the first clean one, or the first for a request that need not avoid black-listed pages; the block is passed over only if it cannot meet the request or the next one surely can; and it is given up only if it cannot and a single page is wanted. |
| Allocator.Heap.EnoughLargeBytesLeft | gc-8.2.12/allchblk.c:68-82 | The greatest list from which on enough bytes are free, or 0. |
| Allocator.Heap.GetFirstPart | gc-8.2.12/allchblk.c:591-616 | A held block is cut to the pages needed; the rest is a free block on the list its own size selects. |
| Allocator.Heap.SplitBlock | gc-8.2.12/allchblk.c:632-661 | Splitting at a page in the middle: the first part goes to the list of its size, the second stands in the place of the whole and is held there. |
| Allocator.Heap.Drop | gc-8.2.12/allchblk.c:743-926 | Dropping a completely black-listed block turns it into used blocks of one page each, keeps all accounts, and takes exactly that block off its list. |
| Allocator.Heap.Release | gc-8.2.12/allchblk.c:935-994 | Freeing a block in use, coalescing it on both sides, keeps the heap consistent, adds exactly its bytes to the free bytes, and leaves every other block in use as it was. |
| Allocator.Heap.AddToHeap | gc-8.2.12/alloc.c:1353-1437 | New pages join the heap as free blocks (the first and the last page of the address space excepted): the sections grow by exactly them, used bytes stay the same, and the heap stays consistent. |
| Allocator.Heap.CheckBlocks | gc-8.2.12/checksums.c:124-138 | Walking all blocks and adding up their bytes always gives the heap size: no block is lost or counted twice. |
| BlockIndex.Index.GetIndex | gc-8.2.12/headers.c:209-259 | Bottom indices stay linked in ascending order, with exactly the one asked for added if it was missing. |
| BlockIndex.Index.InstallCounts | gc-8.2.12/headers.c:280-298 | Every inner page of the block gets the count that leads back, in steps of at most MAX_JUMP, towards its first page. |
| BlockIndex.Index.RemoveCounts | gc-8.2.12/headers.c:310-326 | The inner pages' counts are removed, and nothing else. |
| BlockIndex.Index.StartFrom | gc-8.2.12/misc.c:423-460 | Following counts from any page of a block of any length ends at its first page, past no other start. |
| BlockIndex.Index.PrevBlock | gc-8.2.12/headers.c:393-423 | The last block that starts at h or before; 0 exactly if there is none. |
| BlockIndex.Index.NextBlock | gc-8.2.12/headers.c:357-391 | The first block, in use or of either kind, that starts at h or after; 0 exactly if there is none. |
| BlockIndex.Index.AllInUse | gc-8.2.12/headers.c:330-355 | The walk visits every block in use exactly once, and nothing else. |
| BlockIndex.Index.BlockEndingAt | gc-8.2.12/allchblk.c:331-352 | The block that ends just before h, or 0 exactly if there is none. |
| BlockIndex.Index.Base | gc-8.2.12/misc.c:423-460 | For every address: the start of the object in a block in use that contains it, or 0 if no object does (free pages, the unused end of a page of small objects, and what lies past the end). |
| Finalization.Finalizers.Grow | gc-8.2.12/finalize.c:94-149 | Doubling the table keeps exactly the registrations there were, each on the chain its hash selects. |
| Finalization.Finalizers.Register | gc-8.2.12/finalize.c:667-801 | Registering, replacing or removing a finalizer: exactly the object's registration changes, the old one is returned, and the count follows. |
| Finalization.Finalizers.Finalize | gc-8.2.12/finalize.c:972-1059 | The two passes over the chains leave in the table the registrations of objects marked after the descendant pass, and put the others in front of the queue, in order; the marks are those of the descendant pass and the queued objects. |
| Finalization.FinalizedInOrder | gc-8.2.12/finalize.c:972-1059 | No queued object is reachable by one or more pointers from any registered object, itself included. |
| Finalization.ExactlyUnreachable | gc-8.2.12/finalize.c:972-1059 | Queued are exactly the registered objects that were unmarked and that no registered object reaches; an object for which the mark stack overflowed may stay in the table. |
| Finalization.NoneLost | gc-8.2.12/finalize.c:972-1059 | As multisets, table and queue together hold the same registrations before and after. |
| Finalization.Finalizers.Invoke | gc-8.2.12/finalize.c:1229-1278 | Finalizers are run from the front of the queue, each once. |
| Exclusions.ExclusionTable.Next | gc-8.2.12/mark_rts.c:545-564 | The binary search finds the first excluded range that ends after the address, or none exactly if there is none. |
| Exclusions.ExclusionTable.Exclude | gc-8.2.12/mark_rts.c:568-606 | The table in its array stays sorted and disjoint and denotes the old addresses plus the new range; a range is refused if it overlaps one in the table, and otherwise only when the table is full. |
| Exclusions.ExclusionTable.PushOutside | gc-8.2.12/mark_rts.c:637-655 | The ranges pushed are disjoint and in order, and their union is exactly [bottom, top) without the table. |

## Left out

- User macros (`define-macro` is refused with an error of its own kind, `macro_expand_1_expr`, `apply_callable_raw`): they run arbitrary code at compile time.
- The instructions DEFM and LDCT are in the machine, but no code without macros contains them.
- Defines inside `let*` and `letrec` bodies: the expanders wrap such bodies, so only a define that stands alone is internal; the parser of the surface language follows the code in this.
- Quasiquotation levels: a nested quasiquote is a template like any other, as in the code.
- Texts of error messages; only their kinds are modelled.
- The branch of LD and LSET for environments whose frames are lists: the compiler never makes one.
- String, vector and input/output primitives, bignum arithmetic (integers are unbounded), `load`, the interactive loop, tracing and disassembly.
- Meaning.DesugaringPreservesMeaning: says nothing for forms that are not clean, since whether such a form keeps its meaning depends on the values in a run.
- ReadPrint.PrintedIsRead: strings with quotation marks or backslashes inside, which are printed without escapes, are left out, and so are symbols that would be read as something else. The condition is sufficient, not necessary: a symbol named by a single dot is read back too when it stands alone.
- ReadPrint.Reader.ReadExpr: numerals are read in base ten; the conversion is the integer library's, which is not part of this model.
- A quotation with nothing after it is an error in the model; the source makes a list with a null element.
- Printing.Printer.ToString: what a circular value prints as is not stated, beyond that printing ends.
- Walks.ValueEqual: for circular first values, `equal?` may answer false for bisimilar values of which some part of the first would have to match different parts of the second; there only soundness is stated.
- Marking of dirty pages, typed descriptors, mark procedures and toggle refs; words that may be pointers are given, and objects are marked as wholes.
- ParallelMarker.TerminationIsSafe: entries of the shared stack are whole objects, without the splitting of long ones (`SHARE_BYTES`); how many entries are stolen or returned is arbitrary.
- Unmapping of pages, failure to allocate headers or index entries (which leaks blocks on purpose), and the growth of the array of heap sections.
- Black-listing is a predicate on pages, and the top-level hash of the header index is membership in the list of bottom indices.
- Java finalization mode, disappearing links, other mark procedures for finalization, and finalizer notification.
- Exclusions.ExclusionTable.PushOutside: the table has at least one range, as the source asserts; what the source aborts on is a refusal in the model.
- Stack and register scanning, thread support and all operating-system code.
