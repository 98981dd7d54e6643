# Verified core of raya

This project models the parts of raya, a TypeScript-like language runtime, whose
correctness is hard to see from the code, and proves what those parts promise.
`dafny verify dfyconfig.toml` checks all of it. The parts are independent of each other:

- **Emitted bytecode** (`bytes`, `machine`, `assembler`, `loops`, `emitter`, `workloads`,
  `sums`, `results`, `widths`, `skewed`): the benchmark's builders push opcodes into a byte vector
  and patch relative jumps in place. They are methods on a mutable buffer, proved to emit
  the encoding of a compiled loop program. A compiler-correctness proof and a simulation
  between symbolic and byte-level execution give what the bytes return, for every
  parameter, with 32-bit wrap-around.
- **DNS wire format** (`dnsname`, `dns`, `dnsserial`, `dnscompress`): names, queries and answers,
  compression pointers included, with a whole-message round trip.
- **Module initialisation** (`modulegraph`, `moduleinit`, `modulerun`): the three-colour
  search over imports, and every history of programs run in one VM.
- **XML registry** (`xmlparse`, `xmlheap`, `xmlprint`, `xmlread`, `xmlregistry`): a parser that builds
  trees of numeric handles in a shared map, printing, reading back and recursive release.
- **Strict-mode symbol check** (`text`, `masking`, `regions`, `scanning`, `precheck`,
  `symbols`, `linked`, `stdbodies`, `uses`): lexing away strings and comments, finding tokens, and blanking
  std modules without moving lines.
- **HTTP/1.1** (`numbers`, `httpread`, `httptext`, `httpagree`, `httpwrite`, `httprespond`,
  `httpcustom`): two request parsers, the response reader, chunked bodies, and the writers
  they undo.
- **Listener protocol** (`listener`): listen, accept and close from any number of threads,
  one atomic step on a shared map at a time.
- **Structural slots** (`slots`), **versions** (`semver`) and **NaN-boxing** (`nanbox`).

Code that changes things step by step is a method or a class, proved against a
specification function; the theorems are about that function. Some properties the code
might be expected to have are false. For those there is a lemma that shows a failing
input and one that says exactly when the property holds:

- The benchmark's comment says that the interpreter reads jump operands as 16-bit numbers.
  The interpreter's jump instructions read 32 bits; the JIT's decoder reads 16 bits first.
  The model has both widths. The emitted branch loop, mixed loops and matrix kernel return
  their results on the 16-bit reading only (`Widths.BranchLoopNeedsTwoBytes`,
  `Skewed.MixedNeedsTwoBytes`, `Skewed.MatrixNeedsTwoBytes`): on the other no emitted jump
  reaches its target (`Widths.WideReadMisses`). The arithmetic workload has no jumps and
  runs under either width (`Skewed.ArithmeticAtEither`).
- A name does not survive encoding and parsing when a label has 192 bytes or more
  (`DnsName.RoundTripExact`); text with empty labels does not survive splitting
  (`DnsName.JoinUndoesSplit`).
- The name parser runs forever exactly when it meets a pointer that leads back to itself
  (`DnsName.EndlessIsPointerLoop`, `DnsName.SelfPointerEndless`).
- Reading a namespace member that is exported twice gives null (`Slots.ReadThroughSlot`).
  The linker refuses two exports with one symbol id
  (`crates/raya-engine/src/vm/module/linker.rs`, lines 170-178), which is made of the module,
  the scope and the name, so this needs one name in two scopes.
- A close that marks a listener handle before it was issued can lose it
  (`Listener.GuessedClose`); `Listener.LossExactly` says of every reached state whether an
  issued handle can still be lost.
- The two request parsers differ, for example on lines that end in LF alone
  (`HttpWrite.BareLinesDiffer`); `HttpAgree.AgreeExactly` says of every input whether they do.
- Extra headers can redefine the length of a body or announce chunks, and a line break in a
  custom header can end the head: with the header `X` of value LF LF the body `b` arrives as
  CR (`HttpCustom.InjectedBlank`). `HttpWrite.RequestReadBack` and `HttpCustom.ResponseExact`
  say exactly when the body survives.
- A type's methods need not be among its fields (`Slots.FallbackMethodsLeak`);
  `Slots.LeaksExactly` says which are not, for every type.
- Blanking a std module's body can change what the strict-mode check takes for code behind
  it (`StdBodies.OpenBodyChanges`); `StdBodies.KeptExactly` says exactly when it does not.
  Bodies are told by their lines alone: a line inside a template literal that looks like a
  std header hides what follows (`StdBodies.TemplateHides`).
- XML attribute values are stored as written and escaped when printed, so those with
  special characters change (`XmlPrint.EscapeUnchanged`); so do texts with white space around
  them. Printing and parsing again gives the same tree exactly for all others
  (`XmlRead.SameTree`).
- A declaration of a longer name hides a symbol from the strict-mode check, as `let evaluate`
  does for `eval` (`Uses.LongerNameShadows`); `Uses.ShadowedExactly` says what hides it.
- The least version above a prerelease is not the next patch (`Semver.AboveMin`).

## Model

| member | source | states |
|---|---|---|
| Bytes.LeRoundTrip | crates/raya-engine/examples/jit_bench.rs:46-49 | little-endian bytes of a number read back as that number |
| Bytes.SignedRoundTrip | crates/raya-engine/examples/jit_bench.rs:75-81 | a number that fits w bytes as a signed number survives its little-endian bytes |
| Machine.Wrap | crates/raya-engine/src/vm/interpreter/opcodes/arithmetic.rs:19-60 | the result of an operation is in the 32-bit range |
| Machine.WrapExact | crates/raya-engine/src/vm/interpreter/opcodes/arithmetic.rs:19-60 | it is the one 32-bit value congruent to the exact result |
| Assembler.EncodedSlice | crates/raya-engine/examples/jit_bench.rs:42-64 | each instruction occupies its own stretch of the encoded program |
| Assembler.BytesWrittenOut | crates/raya-engine/src/compiler/bytecode/opcode.rs:34-213 | the bytes of the instructions, operands little end first |
| Assembler.EncodedHolds | crates/raya-engine/src/vm/interpreter/opcodes/control_flow.rs:18-101 | at the address of each instruction the machine decodes that instruction, and a jump leads to its target's address |
| Assembler.StepSimulates | crates/raya-engine/src/vm/interpreter/core.rs:2058-2151 | one byte-level step is one symbolic step, at instruction boundaries only |
| Assembler.RunSimulates | crates/raya-engine/src/vm/interpreter/core.rs:1200-1213 | so are whole runs: every jump lands on its intended instruction |
| Loops.ExprRuns | crates/raya-engine/examples/jit_bench.rs:115-133 | the code of an expression pushes its value and nothing else |
| Loops.MoreFuel | crates/raya-engine/examples/jit_bench.rs:153-181 | a loop program that ends gives the same result under any larger step bound, so the bound does not matter |
| Loops.StmtRuns | crates/raya-engine/examples/jit_bench.rs:153-181 | the code of any statement, nested loops included, does what the statement does, with a balanced stack |
| Loops.ProgramRuns | crates/raya-engine/examples/jit_bench.rs:153-181 | a compiled program returns its result with only the locals left |
| Loops.CompiledEncodable | crates/raya-engine/examples/jit_bench.rs:75-81 | compiled jumps of programs up to 6000 instructions fit their operand |
| Loops.BytesReturn | crates/raya-engine/examples/jit_bench.rs:153-181 | what a loop program returns, its bytes return |
| Emitter.CodeBuffer.Emit | crates/raya-engine/examples/jit_bench.rs:42-44 | one opcode is appended to the encoded program |
| Emitter.CodeBuffer.EmitI32 | crates/raya-engine/examples/jit_bench.rs:46-49 | a constant is appended |
| Emitter.CodeBuffer.EmitLoadLocal | crates/raya-engine/examples/jit_bench.rs:56-59 | a load is appended |
| Emitter.CodeBuffer.EmitStoreLocal | crates/raya-engine/examples/jit_bench.rs:61-64 | a store is appended |
| Emitter.CodeBuffer.EmitReturn | crates/raya-engine/examples/jit_bench.rs:42-44 | a return is appended |
| Emitter.CodeBuffer.EmitJmpPlaceholder | crates/raya-engine/examples/jit_bench.rs:66-73 | a jump to the instruction after it is appended and the position of its operand returned |
| Emitter.CodeBuffer.PatchJump | crates/raya-engine/examples/jit_bench.rs:75-81 | overwriting two bytes in place retargets exactly that jump of the encoded program |
| Workloads.BuildArithmetic | crates/raya-engine/examples/jit_bench.rs:115-133 | emits the encoding of the straight-line sum |
| Workloads.BuildBranchLoop | crates/raya-engine/examples/jit_bench.rs:153-181 | emits the encoding of its commented source loop |
| Workloads.BuildMixed | crates/raya-engine/examples/jit_bench.rs:189-276 | emits the encoding of its commented nested loops with a branch |
| Workloads.BuildMatrix | crates/raya-engine/examples/jit_bench.rs:293-409 | emits the encoding of the three nested loops |
| Sums.RowsFactor | crates/raya-engine/examples/jit_bench.rs:278-293 | the sum over all cells of the product is a product of three simple sums |
| Sums.TriangleClosed | crates/raya-engine/examples/jit_bench.rs:278-293 | closed form of the sum of 1 to n |
| Sums.SquaresClosed | crates/raya-engine/examples/jit_bench.rs:278-293 | closed form of the sum of squares |
| Sums.MixedPlain | crates/raya-engine/examples/jit_bench.rs:189-276 | without overflow an iteration adds (3i + 2j) mod 97, less 5 for even j |
| Results.ArithmeticOnBytes | crates/raya-engine/examples/jit_bench.rs:115-133 | the bytes return 9 times the repeat count, modulo 2^32 |
| Results.BranchLoopOnBytes | crates/raya-engine/examples/jit_bench.rs:153-181 | the bytes return the iteration count, zero for negative ones |
| Results.MixedOnBytes | crates/raya-engine/examples/jit_bench.rs:189-276 | the bytes return the double sum of the commented source, modulo 2^32, for all 32-bit bounds |
| Results.MatrixOnBytes | crates/raya-engine/examples/jit_bench.rs:293-409 | the bytes return the sum over i, j, k of (i+1)(k+1)(k+1)(j+1), modulo 2^32, for every 32-bit n |
| Widths.WideReadMisses | crates/raya-engine/src/vm/interpreter/opcodes/control_flow.rs:18-60 | a jump emitted with two operand bytes and read with four never reaches its target, in any program |
| Widths.BranchLoopAtFour | crates/raya-engine/src/vm/interpreter/opcodes/control_flow.rs:18-60 | what the emitted branch loop does on the four-byte reading: null or failure |
| Widths.BranchLoopNeedsTwoBytes | crates/raya-engine/examples/jit_bench.rs:66-81 | the emitted branch loop returns its count if and only if operands are read with two bytes |
| Skewed.MixedAtFour | crates/raya-engine/src/vm/interpreter/opcodes/control_flow.rs:18-60 | on the four-byte reading the emitted mixed loops return null after 9 steps when the outer bound is not positive, and otherwise fail after 12 |
| Skewed.MatrixAtFour | crates/raya-engine/src/vm/interpreter/opcodes/control_flow.rs:18-60 | there the emitted matrix kernel returns null after 9 steps or fails after 20 |
| Skewed.MixedNeedsTwoBytes | crates/raya-engine/examples/jit_bench.rs:189-276 | the emitted mixed loops return their double sum if and only if operands are read with two bytes |
| Skewed.MatrixNeedsTwoBytes | crates/raya-engine/examples/jit_bench.rs:293-409 | so does the emitted matrix kernel its triple sum |
| Skewed.ArithmeticAtEither | crates/raya-engine/examples/jit_bench.rs:115-133 | the arithmetic workload, which has no jumps, returns its sum under either width |
| DnsName.ParseDnsName | crates/raya-stdlib-posix/src/dns.rs:306-347 | the parsing loop computes the specified name and offset, or reports that it would not end |
| DnsName.ParseExact | crates/raya-stdlib-posix/src/dns.rs:306-347 | the bounded reading used in the specification agrees with the unbounded loop |
| DnsName.EndlessExact | crates/raya-stdlib-posix/src/dns.rs:306-347 | the bounded reading says that the loop never ends exactly when it never does |
| DnsName.EndlessIsPointerLoop | crates/raya-stdlib-posix/src/dns.rs:306-347 | the parser never ends if and only if its walk meets a pointer from which it comes back to that pointer |
| DnsName.SelfPointerEndless | crates/raya-stdlib-posix/src/dns.rs:306-347 | a pointer to its own position, in any packet, and the two bytes C0 00, make it run forever |
| DnsName.NameOffsetInside | crates/raya-stdlib-posix/src/dns.rs:306-347 | no input makes the offset pass the end of the data |
| DnsName.MeaningIsParsed | crates/raya-stdlib-posix/src/dns.rs:306-347 | a name whose pointers all go back before the labels that hold them is parsed, and the offset left just past its own bytes |
| DnsName.PlainNameParses | crates/raya-stdlib-posix/src/dns.rs:306-347 | a name written out in full is parsed at any place in any packet |
| DnsName.CompressedNameMeans | crates/raya-stdlib-posix/src/dns.rs:306-347 | labels and a pointer to an earlier name mean the labels followed by that name |
| DnsName.EncodeDnsName | crates/raya-stdlib-posix/src/dns.rs:255-264 | appends length-prefixed non-empty labels and a zero |
| DnsName.JoinUndoesSplit | crates/raya-stdlib-posix/src/dns.rs:255-264 | splitting at dots and joining again is the identity if and only if no label is empty |
| DnsName.TwoLabels | crates/raya-stdlib-posix/src/dns.rs:255-264 | labels are separated by the byte 46 |
| DnsName.EncodedNameParses | crates/raya-stdlib-posix/src/dns.rs:255-264 | parsing undoes encoding at any offset when labels are short |
| DnsName.LongLabelLost | crates/raya-stdlib-posix/src/dns.rs:255-264 | a label of 192 bytes or more is never read back |
| DnsName.RoundTripExact | crates/raya-stdlib-posix/src/dns.rs:255-264 | the round trip holds if and only if all labels are shorter than 192 bytes |
| Dns.SkipQuestionSection | crates/raya-stdlib-posix/src/dns.rs:390-396 | skips the questions as specified, or stops early |
| Dns.ReadTxt | crates/raya-stdlib-posix/src/dns.rs:444-459 | concatenates the length-prefixed segments of TXT data |
| Dns.ReadValues | crates/raya-stdlib-posix/src/dns.rs:416-478 | the strings of one record by its type |
| Dns.ReadRecord | crates/raya-stdlib-posix/src/dns.rs:400-481 | one record: its items if of the wanted type, and where the next starts |
| Dns.ReadAnswerSection | crates/raya-stdlib-posix/src/dns.rs:399-483 | all records in order, until one does not fit |
| Dns.ParseAnswers | crates/raya-stdlib-posix/src/dns.rs:376-484 | the whole parser as specified |
| Dns.RecordRead | crates/raya-stdlib-posix/src/dns.rs:400-481 | a well-formed record yields exactly its values and the right next offset |
| Dns.MessageRead | crates/raya-stdlib-posix/src/dns.rs:376-484 | from every well-formed message, however its names are compressed, exactly the values of the wanted records, in order |
| Dns.MessageCut | crates/raya-stdlib-posix/src/dns.rs:399-483 | from a response with fewer whole records than it announces, exactly the values of those it has |
| Dns.TypeNumbers | crates/raya-stdlib-posix/src/dns.rs:15-22 | the record types have their assigned numbers |
| Dns.BuildDnsQuery | crates/raya-stdlib-posix/src/dns.rs:267-285 | header, name, type and class of a query |
| Dns.QueryIsMessage | crates/raya-stdlib-posix/src/dns.rs:267-285 | a query is a well-formed message that asks for its name and carries its type, with its identifier, the recursion flag alone and no other section |
| DnsSerial.SpellingMeans | crates/raya-stdlib-posix/src/dns.rs:306-347 | a written or compressed name in a packet means its labels |
| DnsSerial.SuffixMeans | crates/raya-stdlib-posix/src/dns.rs:306-347 | the end of an earlier name written out in full is a valid target of pointers |
| DnsSerial.ResponseIsMessage | crates/raya-stdlib-posix/src/dns.rs:376-484 | serialised responses whose pointers go to places that mean the rest of the name are well-formed messages |
| DnsSerial.ResponseRoundTrip | crates/raya-stdlib-posix/src/dns.rs:376-484 | parsing such a response, names compressed or not, gives the flattened values of its records of the wanted type |
| DnsCompress.BoundaryMeans | crates/raya-stdlib-posix/src/dns.rs:306-347 | from any label of a name on, compressed itself or not, a pointer finds the remaining labels |
| DnsCompress.RefsCompress | crates/raya-stdlib-posix/src/dns.rs:306-347 | if each pointer goes to a label of an earlier name of the response that leaves the rest of its own name, all pointers mean what they stand for |
| DnsCompress.SerializedRoundTrip | crates/raya-stdlib-posix/src/dns.rs:376-484 | from every response serialised with such references, a condition on the questions and entries alone, parsing gives exactly the values of the wanted records, in order |
| ModuleGraph.OrderIsSound | crates/raya-runtime/src/lib.rs:643-695 | what an order with imports first implies: everything reached resolves, is acyclic and is listed |
| ModuleInit.Orderer.Visit | crates/raya-runtime/src/lib.rs:648-688 | the marking search lists a module after its imports, keeps the invariant of its marks, or returns a justified fault; it ends because unmarked modules get fewer |
| ModuleInit.JustifiedRefutes | crates/raya-runtime/src/lib.rs:659-681 | a reported fault proves that no order exists |
| ModuleInit.Orderer.Order | crates/raya-runtime/src/lib.rs:643-695 | an order is found if and only if every reachable import resolves and no cycle is reachable; it has no duplicates, holds exactly the reachable modules, imports first, entry last |
| ModuleRun.FinishesExactly | crates/raya-runtime/src/lib.rs:1244-1276 | a pass finishes if and only if every module is initialised or succeeds, and then all are initialised |
| ModuleRun.StopsExactly | crates/raya-runtime/src/lib.rs:1244-1276 | otherwise it stops at the first that does not, with exactly those before it initialised |
| ModuleRun.FailsExactly | crates/raya-runtime/src/lib.rs:1248-1276 | a module fails iff its body crashes, it has imports that do not hydrate, or it is the entry and has no main |
| ModuleRun.LibraryRuns | crates/raya-runtime/src/lib.rs:1264-1270 | a library module without a main does not stop the program that imports it |
| ModuleRun.NothingLeft | crates/raya-runtime/src/lib.rs:1244-1247 | running an initialised program again executes nothing |
| ModuleRun.EveryHistorySound | crates/raya-runtime/src/lib.rs:1208-1284 | over every sequence of programs in one VM: a body is entered only when not completed and when all it reads from is, and initialised means completed |
| ModuleRun.CompletesOnce | crates/raya-runtime/src/lib.rs:1244-1276 | in such a history no body completes twice or is entered after completing |
| ModuleRun.SharedTableClosed | crates/raya-runtime/src/lib.rs:1208-1284 | over one module table, failing bodies included, the initialised set stays closed under imports |
| ModuleRun.Vm.RunModules | crates/raya-runtime/src/lib.rs:1242-1284 | the loop over the order, the entry's result, and what a module that failed did: it crashed, had imports that do not hydrate, or was the entry without a main |
| ModuleRun.Vm.Execute | crates/raya-runtime/src/lib.rs:1208-1284 | order and run together: which of the four outcomes, exactly when, in terms of what the modules do, and the state left |
| Slots.SlotMapFromLayouts | crates/raya-runtime/src/lib.rs:1908-1923 | each expected name is bound to its last place, Missing exactly when absent |
| Slots.MaterializeNamespace | crates/raya-runtime/src/lib.rs:1351-1377 | each field holds the last export of the name that first occurs there, or nothing |
| Slots.NamedExactly | crates/raya-runtime/src/lib.rs:1351-1377 | every export but the wildcard is kept, in order |
| Slots.ReadThroughSlot | crates/raya-runtime/src/lib.rs:1351-1411 | reading an expected slot: Missing iff not exported, the export's value if exported once, null if exported twice |
| Slots.NamespaceView | crates/raya-runtime/src/lib.rs:1351-1411 | the same for the view a consumer gets |
| Slots.OnceDistinct | crates/raya-runtime/src/lib.rs:1351-1411 | every name is read as its export only if the names are distinct |
| Slots.DistinctOnce | crates/raya-runtime/src/lib.rs:1351-1411 | with distinct names every name is |
| Slots.Collect | crates/raya-runtime/src/lib.rs:1765-1862 | collects exactly the member names of a type, and finds members iff there are any |
| Slots.MemberLayout | crates/raya-runtime/src/lib.rs:1886-1897 | expected layouts are sorted, without duplicates, and hold exactly the members |
| Slots.PlainNames | crates/raya-runtime/src/lib.rs:1765-1897 | the names of object and class types, and of unions |
| Slots.SortedUnique | crates/raya-runtime/src/lib.rs:1864-1897 | equal member sets have equal layouts |
| Slots.MethodsAreFields | crates/raya-runtime/src/lib.rs:1765-1897 | the methods of a type are all among its fields if and only if no name leaks |
| Slots.LeaksExactly | crates/raya-runtime/src/lib.rs:1765-1897 | for every type and name: it is a method and no field if and only if it leaks, through a type variable whose constraint has fields and no methods and whose default has it as a method |
| Slots.FallbackMethodsLeak | crates/raya-runtime/src/lib.rs:1847-1853 | a default's methods can join the constraint's fields |
| XmlParse.ElementRuns | crates/raya-stdlib/src/encoding.rs:438-485 | the events of an element add exactly its tree, whatever is open or registered |
| XmlParse.ContentRuns | crates/raya-stdlib/src/encoding.rs:438-535 | content gives an element its joined text and its children in order |
| XmlParse.TextIsSpaced | crates/raya-stdlib/src/encoding.rs:509-535 | the text of an element is its pieces, trimmed texts and character data, with one space between neighbours; what empty character data does |
| XmlParse.ForestRuns | crates/raya-stdlib/src/encoding.rs:427-543 | top-level elements are laid out one after the other; the last is the root |
| XmlHeap.StepKeeps | crates/raya-stdlib/src/encoding.rs:438-538 | every event, also of ill-formed input, keeps one smaller-numbered parent per child and touches no older node |
| XmlHeap.HistoryKeeps | crates/raya-stdlib/src/encoding.rs:24-48 | over every history of parses and releases: handles are never reused, children exceed parents, older nodes are unchanged or gone |
| XmlHeap.DanglingForever | crates/raya-stdlib/src/encoding.rs:796-802 | a dangling child handle never names a node again |
| XmlHeap.CommonDescendant | crates/raya-stdlib/src/encoding.rs:427-543 | two nodes with a common descendant are above one another: trees do not overlap |
| XmlHeap.ReleaseElsewhere | crates/raya-stdlib/src/encoding.rs:796-802 | releasing a tree leaves trees that do not overlap it intact |
| XmlHeap.ReleaseUnfolds | crates/raya-stdlib/src/encoding.rs:796-802 | releasing a node is removing it and releasing its children |
| XmlPrint.EscapeIsOnePass | crates/raya-stdlib/src/encoding.rs:588-594 | the five replacements in a row escape each character once |
| XmlPrint.EscapeRoundTrip | crates/raya-stdlib/src/encoding.rs:588-594 | reading the entities back undoes escaping, and no markup character is left |
| XmlPrint.EscapeUnchanged | crates/raya-stdlib/src/encoding.rs:441-453 | a value is printed as stored iff it holds none of the five characters |
| XmlPrint.LaidPrints | crates/raya-stdlib/src/encoding.rs:546-585 | a registered tree prints as the tree does |
| XmlRead.PrintRead | crates/raya-stdlib/src/encoding.rs:546-585 | a reader of tags, quoted attributes and text that knows nothing of the printer reads a printed tree as exactly its events, end tags matching |
| XmlRead.RenderedRead | crates/raya-stdlib/src/encoding.rs:546-585 | so for what a registered tree prints as |
| XmlRead.PrintParsed | crates/raya-stdlib/src/encoding.rs:427-585 | parsing what was printed lays out the tree again, with values as printed and texts trimmed |
| XmlRead.SameTree | crates/raya-stdlib/src/encoding.rs:427-585 | that is the same tree iff no text has white space around it and no value one of the five characters |
| XmlPrint.InvalidExactly | crates/raya-stdlib/src/encoding.rs:546-585 | printing fails iff the handle or a child handle below it names no node |
| XmlPrint.ReleaseBreaks | crates/raya-stdlib/src/encoding.rs:796-802 | releasing a node breaks the printing of everything above it |
| XmlRegistry.Registry.Add | crates/raya-stdlib/src/encoding.rs:32-36 | a new node under the next handle, which was free |
| XmlRegistry.Registry.Take | crates/raya-stdlib/src/encoding.rs:438-538 | one event on the registry, the stack and the root |
| XmlRegistry.Registry.Parse | crates/raya-stdlib/src/encoding.rs:427-543 | the event loop: state and answer as specified, earlier nodes untouched |
| XmlRegistry.Registry.Release | crates/raya-stdlib/src/encoding.rs:796-802 | removes exactly the live nodes reachable from the handle |
| XmlRegistry.Registry.Stringify | crates/raya-stdlib/src/encoding.rs:546-585 | the recursive printer as specified, and it ends |
| XmlRegistry.DocumentParsed | crates/raya-stdlib/src/encoding.rs:427-543 | an answer iff there is an element; earlier nodes untouched |
| XmlRegistry.SingleRootParsed | crates/raya-stdlib/src/encoding.rs:427-543 | a single-root document answers a handle whose reachable nodes are exactly its own consecutive handles and form exactly its tree |
| XmlRegistry.OneElement | crates/raya-stdlib/src/encoding.rs:427-543 | a document with one element at the top level, whatever text and comments stand around it, has that one tree |
| XmlRegistry.LaidReach | crates/raya-stdlib/src/encoding.rs:427-543 | the nodes reached from a parsed tree are exactly its handles |
| Masking.MaskNonCodeRegions | crates/raya-runtime/src/builtin_manifest.rs:347-462 | the six-state loop computes the specified masking |
| Masking.MaskKeeps | crates/raya-runtime/src/builtin_manifest.rs:347-462 | length and line breaks stay, each character stays or is blanked, no quote or comment opener is left, masking again changes nothing |
| Regions.MaskByRegions | crates/raya-runtime/src/builtin_manifest.rs:347-462 | masking blanks exactly the literals and comments of a source |
| Regions.MaskDescribed | crates/raya-runtime/src/builtin_manifest.rs:347-462 | every source falls into such regions, so that describes masking for all sources |
| Scanning.FindClose | crates/raya-runtime/src/builtin_manifest.rs:317-335 | finds the parenthesis that closes an opened one, iff there is one |
| Scanning.IsMemberOrMethodDeclarationContext | crates/raya-runtime/src/builtin_manifest.rs:293-345 | recognises property keys and method declarations as specified |
| Scanning.IsUse | crates/raya-runtime/src/builtin_manifest.rs:245-283 | whether an occurrence is a use of the symbol |
| Scanning.FindTokenOccurrence | crates/raya-runtime/src/builtin_manifest.rs:242-287 | the search over non-overlapping occurrences as specified |
| Scanning.ScanLeast | crates/raya-runtime/src/builtin_manifest.rs:242-287 | for tokens that cannot start over within themselves the search finds the first use there is |
| Scanning.OverlappingMissed | crates/raya-runtime/src/builtin_manifest.rs:242-287 | every other dotted token has a source where it misses the only use |
| Symbols.SymbolsSearchable | crates/raya-runtime/src/builtin_manifest.rs:18-194 | all symbols of the list are of the first kind |
| Precheck.SearchExact | crates/raya-runtime/src/builtin_manifest.rs:203-208 | the search finds the least offence of an unshadowed symbol |
| Precheck.FindFirstUsage | crates/raya-runtime/src/builtin_manifest.rs:197-221 | reports nothing iff no unshadowed symbol is used; otherwise the least offset over all of them, the first symbol of the list used there, and that offset's line |
| Uses.KeyIsNoUse | crates/raya-runtime/src/builtin_manifest.rs:293-312 | a token before white space and a colon is a key and no use |
| Uses.MemberIsNoUse | crates/raya-runtime/src/builtin_manifest.rs:266-275 | a token behind a dot and white space is no use |
| Uses.MethodIsNoUse | crates/raya-runtime/src/builtin_manifest.rs:314-345 | a token with matched parameters and then a brace or a colon is no use |
| Uses.PartOfWord | crates/raya-runtime/src/builtin_manifest.rs:246-262 | a token next to a letter, a digit or an underscore is no use |
| Uses.WordIsUse | crates/raya-runtime/src/builtin_manifest.rs:245-283 | a word of its own with neither a colon nor a parenthesis behind it is a use |
| Uses.CallIsUse | crates/raya-runtime/src/builtin_manifest.rs:245-283 | so is a call |
| Uses.ShadowedExactly | crates/raya-runtime/src/builtin_manifest.rs:227-240 | a name is shadowed iff one of the six declaration forms with it stands somewhere in the text |
| Uses.LongerNameShadows | crates/raya-runtime/src/builtin_manifest.rs:227-240 | also when the declared name goes on |
| Uses.RootExactly | crates/raya-runtime/src/builtin_manifest.rs:223-225 | the root of a symbol is what stands before its first dot |
| Uses.DeclaredUnreported | crates/raya-runtime/src/builtin_manifest.rs:197-221 | no symbol whose root the code declares so is reported |
| Uses.UseReported | crates/raya-runtime/src/builtin_manifest.rs:197-221 | whenever the code uses a symbol and does not declare its root, something is reported |
| Linked.MaskLinkedStdModuleBodies | crates/raya-runtime/src/compile.rs:650-675 | lines of std module bodies are emptied, all others kept |
| StdBodies.MarkedIsMasked | crates/raya-runtime/src/compile.rs:650-654 | a source with a std mark anywhere is masked line by line, and no other is changed |
| StdBodies.EntryEnds | crates/raya-runtime/src/compile.rs:655-675 | the mark of the entry module ends a std body |
| Linked.BlameIsReal | crates/raya-runtime/src/compile.rs:650-675 | a use found after that stands on the same line of the original source, outside every std body |
| Linked.PrecheckSymbolUsage | crates/raya-runtime/src/compile.rs:627-648 | in strict mode only: reports what the search finds outside std bodies, on the line of the original source where the symbol stands |
| Linked.PrecheckNodeCompatSymbolUsage | crates/raya-runtime/src/compile.rs:627-648 | so for the whole list of symbols |
| StdBodies.MaskByLines | crates/raya-runtime/src/builtin_manifest.rs:347-462 | masking a text is masking its lines one after the other: no token crosses a line break |
| StdBodies.KeptExactly | crates/raya-runtime/src/compile.rs:650-675 | at the start of every line outside std bodies the lexer is in the same state with the bodies and without, if and only if every std body leaves it in the state in which it found it |
| StdBodies.KeptLinesAgree | crates/raya-runtime/src/compile.rs:627-675 | then what is code on each of those lines is what it was |
| StdBodies.OpenBodyChanges | crates/raya-runtime/src/compile.rs:650-675 | a std body that opens a template literal: the next module is read as text with it and as code without |
| StdBodies.TemplateHides | crates/raya-runtime/src/compile.rs:650-675 | behind a line in a template literal that looks like a std header, any line is blanked |
| Numbers.PrintParse | crates/raya-stdlib-posix/src/fetch.rs:224-226 | printed decimal and hexadecimal numbers read back up to the maximum, and not above it |
| Numbers.OtherSpellings | crates/raya-stdlib-posix/src/fetch.rs:349-368 | upper-case hexadecimal digits and a leading plus sign are read, nothing at all is not |
| HttpRead.ParseHttpRequestFromReader | crates/raya-stdlib-posix/src/http.rs:591-643 | the line-reading request parser as specified |
| HttpRead.ReadTlsHead | crates/raya-stdlib-posix/src/http.rs:509-531 | the byte-by-byte loop stops behind the first blank line |
| HttpRead.ParseTlsRequest | crates/raya-stdlib-posix/src/http.rs:504-588 | the TLS request parser as specified |
| HttpRead.ReadChunkedBody | crates/raya-stdlib-posix/src/fetch.rs:349-368 | the chunk loop as specified |
| HttpRead.ReadHttpResponse | crates/raya-stdlib-posix/src/fetch.rs:244-298 | the response reader as specified |
| HttpAgree.ParsersAgree | crates/raya-stdlib-posix/src/http.rs:504-643 | on requests whose head lines end in CRLF, hold no other CR or LF and are not blank, both parsers return the same, errors included |
| HttpAgree.AgreeExactly | crates/raya-stdlib-posix/src/http.rs:504-643 | on every input: both parsers return the same if and only if it is not empty and its first line is malformed or the announced body is empty, longer than what follows the head, or the same in both places where they look for it |
| HttpAgree.NoBlankLineDiffers | crates/raya-stdlib-posix/src/http.rs:504-643 | a body with no CRLF CRLF before it is read by the plain parser and reported short by the TLS parser |
| HttpAgree.OneWordRefused | crates/raya-stdlib-posix/src/http.rs:594-602 | a first line of one word is refused |
| HttpAgree.NoStatusRefused | crates/raya-stdlib-posix/src/fetch.rs:334-347 | a status line without a number is refused |
| HttpWrite.BareLinesDiffer | crates/raya-stdlib-posix/src/http.rs:504-643 | with lines that end in LF alone they differ on every request with one header, the length, and a non-empty body without CR |
| HttpWrite.BuildRequest | crates/raya-stdlib-posix/src/fetch.rs:220-242 | the request text as specified |
| HttpWrite.RequestReadBack | crates/raya-stdlib-posix/src/fetch.rs:220-242 | the server recovers method, path, query, headers and body iff the headers announce the length of the body |
| HttpWrite.RequestRoundTrip | crates/raya-stdlib-posix/src/fetch.rs:220-242 | it does for all extra headers that do not set the length, and finds the host and that the connection closes unless they set those |
| HttpWrite.ExtraHeaderFound | crates/raya-stdlib-posix/src/fetch.rs:228-236 | each extra header is found under its key if no later line has that key |
| HttpWrite.KeptCollects | crates/raya-stdlib-posix/src/fetch.rs:228-236 | leaving blank lines out and trimming the others changes nothing for who collects them |
| HttpWrite.ExtraLineFound | crates/raya-stdlib-posix/src/fetch.rs:228-236 | so each line of the extra headers is found under its key if no later line has that key |
| HttpWrite.TargetSplit | crates/raya-stdlib-posix/src/http.rs:606-614 | path and query make up the target again |
| HttpText.FieldRead | crates/raya-stdlib-posix/src/http.rs:626-633 | a field written as name and value is read back |
| HttpText.HeadReadBack | crates/raya-stdlib-posix/src/http.rs:616-634 | written header lines are collected one by one and the body is left |
| HttpRespond.ServerRespond | crates/raya-stdlib-posix/src/http.rs:163-235 | the text of text and binary responses |
| HttpRespond.ServerRespondHeaders | crates/raya-stdlib-posix/src/http.rs:238-289 | the text of responses with custom headers |
| HttpRespond.FirstResponseRead | crates/raya-stdlib-posix/src/fetch.rs:334-347 | the status line is read back for every status code |
| HttpRespond.Reasons | crates/raya-stdlib-posix/src/http.rs:645-664 | the reason phrases of successes and redirections |
| HttpRespond.ErrorReasons | crates/raya-stdlib-posix/src/http.rs:645-664 | those of client errors |
| HttpRespond.ServerReasons | crates/raya-stdlib-posix/src/http.rs:645-664 | those of server errors |
| HttpRespond.ResponseRoundTrip | crates/raya-stdlib-posix/src/fetch.rs:244-298 | the client recovers status, reason, headers and body of every response whose further headers do not frame the body |
| HttpCustom.ResponseExact | crates/raya-stdlib-posix/src/http.rs:238-289 | with any custom headers, line breaks included: without a blank line among them the response is recovered iff they leave the announced length alone and, unless the body is empty, announce no chunks; with one, iff the body comes out of the chunks behind that line, or is the beginning of the text there and has the announced length |
| HttpCustom.InjectedBlank | crates/raya-stdlib-posix/src/http.rs:238-289 | a custom header whose value is two line breaks ends the head: the client takes the rest of the headers for the body |
| HttpCustom.BlockRead | crates/raya-stdlib-posix/src/fetch.rs:244-298 | reading a header block, a blank line and a body: the head is the block up to its first blank line, and what is left |
| HttpRespond.ServedRead | crates/raya-stdlib-posix/src/http.rs:163-235 | the client recovers status, reason and body from the text and the binary writer, for every content type of one line, and the three headers |
| HttpCustom.CustomRead | crates/raya-stdlib-posix/src/http.rs:238-289 | and from the writer with custom headers, line breaks in them or not, when no line of them is blank or sets the length or the transfer encoding |
| HttpCustom.CustomIsQuiet | crates/raya-stdlib-posix/src/http.rs:238-289 | headers of one line each are such when no name gives one of the two keys |
| HttpCustom.CustomFound | crates/raya-stdlib-posix/src/http.rs:238-289 | a custom header is received under its key if no later header has that key |
| HttpCustom.ChunksLose | crates/raya-stdlib-posix/src/fetch.rs:349-368 | what is read from chunks is shorter than its input |
| HttpText.FieldKeyRead | crates/raya-stdlib-posix/src/http.rs:626-633 | the key read from a written field is its name up to a colon, trimmed, in lower case |
| HttpRespond.ChunksRead | crates/raya-stdlib-posix/src/fetch.rs:349-368 | chunks are put together again, however the body was split and their sizes spelled |
| HttpRespond.PrintedSize | crates/raya-stdlib-posix/src/fetch.rs:349-368 | every non-empty piece has such a spelling |
| HttpRespond.SameBody | crates/raya-stdlib-posix/src/fetch.rs:244-298 | a body sent in chunks is received like the same body sent with its length |
| HttpRespond.ChunkedAnyCase | crates/raya-stdlib-posix/src/fetch.rs:271-273 | the coding is recognised in any case and among others |
| Listener.NextKeeps | crates/raya-stdlib-posix/src/net.rs:76-159 | every atomic step of every call keeps the invariant |
| Listener.IssuedIsKnown | crates/raya-stdlib-posix/src/net.rs:76-159 | in every interleaving a handle nobody tried to close before it was issued is listening or closed |
| Listener.AcceptAnswers | crates/raya-stdlib-posix/src/net.rs:98-144 | accept on it never answers invalid handle; begun after the close was marked it answers shutdown, and any accept that does so means the handle is closed |
| Listener.AnsweredAsTold | crates/raya-stdlib-posix/src/net.rs:98-144 | in every interleaving, while the handle is not closed: a connection iff the operating system answered well both times, an error iff one of its answers was bad |
| Listener.AcceptAlone | crates/raya-stdlib-posix/src/net.rs:98-144 | an accept on an open listener that nobody disturbs ends, with a connection or an error as the operating system answers |
| Listener.CloseIsFinal | crates/raya-stdlib-posix/src/net.rs:147-159 | a finished close leaves it marked and out of the listeners for good |
| Listener.HandlesDiffer | crates/raya-stdlib-posix/src/handles.rs:28-32 | no handle is issued twice |
| Listener.PoliteCallers | crates/raya-stdlib-posix/src/http.rs:38-160 | when callers close only handles they were given, every issued handle is listening or closed |
| Listener.LossExactly | crates/raya-stdlib-posix/src/net.rs:76-159 | in every reached state an issued handle can still be lost if and only if it is lost, or it is unmarked while a close that marked it has yet to remove it |
| Listener.GuessedClose | crates/raya-stdlib-posix/src/http.rs:292-303 | an interleaving where a close of an unissued handle makes accept on the issued one fail |
| Semver.CompareChains | crates/raya-pm/src/semver.rs:171-195 | the order is transitive |
| Semver.TotalPreorder | crates/raya-pm/src/semver.rs:171-195 | the order is total and level exactly on versions that differ in builds only |
| Semver.OrderExactly | crates/raya-pm/src/semver.rs:171-195 | the first difference among major, minor and patch decides, then the prerelease: before the release, and in the order of texts |
| Text.LessExactly | crates/raya-pm/src/semver.rs:186-193 | in the order of texts the first difference decides, and a proper prefix comes first |
| Semver.CaretIsRange | crates/raya-pm/src/semver.rs:295-309 | caret matches exactly from v to the matching bump, without the prereleases of the bump |
| Semver.TildeIsRange | crates/raya-pm/src/semver.rs:311-314 | tilde likewise up to the next minor |
| Semver.BoundsExactly | crates/raya-pm/src/semver.rs:316-319 | below and at least, at most and above are complements, and the two inclusive bounds meet in the exact constraint |
| Semver.WildcardIsRange | crates/raya-pm/src/semver.rs:321-327 | among releases a wildcard is the half-open interval up to the next number |
| Semver.MinLeast | crates/raya-pm/src/semver.rs:332-351 | the named minimum is least among all versions |
| Semver.WildcardMin | crates/raya-pm/src/semver.rs:341-347 | a wildcard's minimum is least among releases, not among all |
| Semver.AboveMin | crates/raya-pm/src/semver.rs:339 | the next patch is the least release above v iff v is a release |
| Semver.DisplayRoundTrip | crates/raya-pm/src/semver.rs:67-163 | parsing a displayed version gives it back iff its prerelease has no plus sign and its text no white space at the end |
| Semver.ParsedRoundTrip | crates/raya-pm/src/semver.rs:67-163 | every version that parsing accepts survives being displayed and parsed again |
| Semver.LeadingV | crates/raya-pm/src/semver.rs:69-72 | a leading v is ignored |
| Semver.ThreeNumbers | crates/raya-pm/src/semver.rs:91-97 | two or four numbers are no version |
| NanBox.OneKind | crates/raya-sdk/src/value.rs:139-200 | every 64-bit pattern has exactly one class |
| NanBox.NullExact | crates/raya-sdk/src/value.rs:150-152 | the null check holds for the tag of null with an empty payload only |
| NanBox.UncheckedExact | crates/raya-sdk/src/value.rs:150-200 | a pattern passes no type check iff it has the tag of null and a payload |
| NanBox.OthersRefuse | crates/raya-sdk/src/value.rs:208-291 | all extractors but its own refuse a value |
| NanBox.I64RoundTrip | crates/raya-sdk/src/value.rs:114-116 | a long survives iff it fits 32 bits as a signed number |
| NanBox.U64RoundTrip | crates/raya-sdk/src/value.rs:120-122 | an unsigned long survives iff it fits 48 bits |
| NanBox.I32RoundTrip | crates/raya-sdk/src/value.rs:90-92 | every int survives |
| NanBox.BoolRoundTrip | crates/raya-sdk/src/value.rs:84-86 | both booleans survive |
| NanBox.U32RoundTrip | crates/raya-sdk/src/value.rs:102-104 | every unsigned int survives |
| NanBox.F32RoundTrip | crates/raya-sdk/src/value.rs:108-110 | every single-precision pattern survives |
| NanBox.PtrRoundTrip | crates/raya-sdk/src/value.rs:129-133 | an address survives iff it fits 48 bits |
| NanBox.CheckedMeans | crates/raya-sdk/src/value.rs:150-200 | which patterns pass some type check |
| NanBox.F64RoundTrip | crates/raya-sdk/src/value.rs:96-98 | a double survives iff it is no quiet NaN with its sign set; every other double does |

## Left out

- Emitter.CodeBuffer.PatchJump: requires the distance to fit 16 bits, where the source panics.
- Loops.CompiledEncodable: is limited to 6000 instructions, which covers every workload with jumps.
- The float workload of the benchmark, the JIT itself and its timing.
- Values other than null, booleans and 32-bit integers in the interpreter, and its other instructions.
- Rendering numbers and addresses as text in DNS answers; lossy UTF-8 decoding everywhere: texts are ASCII.
- Sockets, TLS handshakes, resolver configuration and transaction ids: inputs and outputs are byte sequences.
- ModuleRun.EveryHistorySound: takes equal checksums to mean equal modules, as the initialised flag is kept per checksum.
- ModuleRun.Vm.Execute: what bodies and hydration do is a parameter; globals and seeding of builtins are not modelled.
- Slots.Collect: types are trees, with references already looked up.
- XmlRegistry.Registry.Parse: takes the reader's events as input; attributes that fail to decode are already dropped, text is unescaped.
- Concurrent use of the XML registry: its operations are atomic here.
- Masking and scanning of non-ASCII sources, whose bytes the source turns into other characters.
- The hints attached to symbols, `compute_user_line`, and the other checks of compilation.
- HttpRead.ParseHttpRequestFromReader: says short body where an announced length beyond the largest allocation makes the source panic; all input is there at once; reading errors other than a short body are not modelled.
- HttpRead.ParseTlsRequest: says short body, too, where such a length makes the source panic.
- HttpRead.ReadHttpResponse: says short body, too, where such a length makes the source panic.
- HttpRead.ReadChunkedBody: says short body where a chunk size beyond the largest allocation makes the source panic.
- HttpRespond.ServerRespond: takes the content type as a parameter, one method for the text and the binary writer.
- URL parsing, redirects and request handles in the HTTP parts.
- Listener.NextKeeps: ids are unbounded and map operations sequentially consistent; waking a blocked accept is not modelled.
- Semver.AboveMin: versions are unbounded; at the largest 64-bit patch number the source's bump overflows, and what it returns does not satisfy the constraint.
- Parsing and displaying constraints.
- Files, processes, terminals, archives, package registries, manifests, the command line, the garbage collector and the type checker.
