# Models and proofs for ns-3, the Network Simulation Cradle and pybindgen

This project models the logic of several programs that are bundled in one repository
and proves properties of the models. Each part is a set of Dafny modules.

**The globaliser of the Network Simulation Cradle** rewrites the C source of a TCP
stack so that many instances of it can live in one process: every global and every
static local becomes `NUM_STACKS` copies, and every reference selects the copy of the
current stack. `CLanguage` gives a fragment of C one meaning that serves the source and
the output alike: integers and pointers, assignment, stores through pointers, calls,
blocks, `if`, `while`, automatic and static locals, globals, enumerators and
initialisers. `Globalise` says by C's scope rules what the output ought to be, and
`Isolation` proves that this output lets any number of stacks share a process without
touching one another. `Tables` states what the tool does with its lists and its symbol
table, `Rewriter` is the tool's own form (a class whose lists are pushed and popped in
place), `ScopeDiscipline` and `Refinement` prove exactly when the tool's output is the
right one, `Leftovers` says what any scope leaves in the symbol table, and
`Counterexamples` shows the programs where the output is wrong. `GlobalNames`,
`StackCopies` and `ExternRegistry` cover the invented names, the substitution loops for
per-stack initialisers and the pruning of extern arrays; `Lexer` covers the one-token
lookahead in front of the parser.

**The test runner of ns-3** (`WorkerPool`): a main thread, worker threads, two queues
and a signal handler, as a machine whose runs are all interleavings.

**The command lines of the ns-3 build** (`CommandLine`, `PipelineParse`,
`PipelineSyntax`, `PipelineWords`, `PipelineRun`, `PipelineLaws`, `PipelinePlaces`): the
token machine, the loop that launches processes, what a command line means, and which
processes with which words, files and directories come of it.

**The address library** (`IPv6Text`, `IPv6Numbers`, `IPv6Address`, `IPv6Prefix`, `IPv4Address`,
`IPv4Prefix`, `IPvXAddress`, with `BitWords`, `WordHalves` and `Decimal`): notation,
printing and parsing, and prefixes.

**Sockets over the stack** (`TcpSocket`, `NscTcp`, `TcpSystem`, `TcpLaws`, `TcpSimulation`): socket
objects, the TCP module with its connection table, every interleaving of applications,
gates and packets, and the simulation that runs them on the objects.

**Walks over types and classes** (`TypeGraph`, `TypeGather`, `SortedEntries`,
`ClassHierarchy`, `PureVirtual`), and **the patch format** (`PatchSet`,
`PatchRoundTrip`).

## Where the code does not do what one would expect

Each item names a lemma with an offending input and, after it, the one that says exactly
when the code does what it should.

- The globaliser looks at its list of automatics before its list of statics, so a static
  that shadows an enclosing automatic is not rewritten (`ShadowedStaticIsMissed`), and the
  program runs differently (`ShadowRunsApart`). For a well-behaved file the output is right
  if and only if no reference to a globalised variable stands where an automatic of that
  name is listed (`ToolIsRightIff`).
- Two static declarations in one statement list leave the first one defined
  (`TwoDeclarationsLeaveTheFirst`, `TwoDeclarationsAreWrong`); the list of statics is
  restored if and only if every list has at most one (`StaticsRestoredIff`).
- A static pushes two symbols and pops one. A nested static array of the same name leaves a
  stale answer (`NestedStaticsGoStale`, `NestedStaticsAreWrong`). What a scope leaves in an
  entry is a function of its text (`ScopeLeaves`), and a reference behind it becomes what it
  would have become in front of it if and only if an automatic hides the name, the scope
  declares no static of that name, or the name was a rewritten variable and either no mangled
  symbol of it is left or the last one left is that of a scalar and the answer was a scalar
  before (`ReferenceSurvivesIff`, `AllReferencesSurviveIff`). With one static declaration a
  list, no mangled symbol is left if and only if statics of the name never nest (`NestedIff`);
  what only the first of two declarations in a list names always stays (`OverwrittenStays`).
- A static named like a function or an enumerator hides it for the rest of the file
  (`StaticNamedLikeFunction`), and the tool stops at its next use (`KindFileExits`); the
  name keeps its kind over a body if and only if no static at any depth of it has that name
  (`KindSurvivesIff`).
- An array whose initialiser mentions itself makes the tool give up
  (`SelfReferringArrayExits`); a declarator does so if and only if its name is taken by
  something else or its initialiser reads a rewritten variable without a mangled symbol
  (`DeclaratorExitsIff`).
- A variable whose name begins like a generated prefix is renamed by the substitution of
  prefixes (`PrefixLikeNameIsRenamed`); an instance keeps its name if and only if the name
  hides no prefix (`InstanceRenamedIff`), and a copied initialiser is right if and only if
  none of its texts and names does (`CopyIsRightIff`).
- A source name can be spelled like a generated one (`ReservedNamesClash`); the form of the
  name tells exactly which are (`ReservedIff`, `OwnSpellingIff`).
- `&&` and `||` apply to the whole rest of a command line, so that `a || b && c` stops after
  a successful `a` (`MixedLineDiffers`). The line has the left-associative reading of
  section 2.9.3 of the POSIX Shell Command Language under all exit statuses if and only if
  it does not mix the two operators, or ends in its first pipe (`PosixOnAllStatusesIff`);
  a single run agrees if and only if it does not stop at an operator that has one of the
  other kind behind it (`AgreesWithPosixIff`).
- With no workers and at least one job the test runner waits for ever
  and no run of it returns (`NoWorkersDeadlock`); otherwise it never does (`NoDeadlock`).
- The IPv6 parser accepts "::" next to eight groups, where it stands for no group at all
  (`EmptyGapAccepted`); every other accepted text is in the notation with "::" for at least
  one group (`StrictUnlessEmptyGap`).
- A valid port with a given address is taken for "no port" if and only if it is 65535
  (`LastPortIsLost`).
- The base class walk yields the top of a diamond twice (`DiamondRepeats`), because a class is
  marked when it leaves the queue. Its first occurrences are the breadth-first order, in which
  a class is marked when it is queued (`MroFirsts`); some class is yielded twice if and only
  if in that order the classes in front of some class name it at two places
  (`MroRepeatsIff`), which is never so where every ancestor is named once among the ancestors
  (`TreesDoNotRepeat`).
- The search for pure virtual methods overlooks overriders that are not marked virtual
  (`UnmarkedOverriderIsMissed`); for a signature it differs from the most derived
  declaration if and only if the last virtual declaration is pure and one that is not
  virtual lies behind it (`MissedIff`, `CheckIsRightIff`).
- A removed line that begins with "-- " or an added one that begins with "++ " is taken
  for a file header when a written patch is parsed (`HeaderLikeLineIsLost`); a patch set
  comes back if and only if it has no such line (`ParsesBackIff`).

## Model

| member | source | states |
|---|---|---|
| Isolation.EvalRel | nsc-0.5.2/globaliser/handle_global.cc:365-413 | an expression of the rewritten program, evaluated by stack k, has the value of the original expression with every address replaced by that of stack k's copy |
| Isolation.ExecRel | nsc-0.5.2/globaliser/node.cc:1454-1617 | every statement, with any nesting of scopes, loops and calls and any number of steps: both programs complete, get stuck or run out of steps together, slot k follows the original variables, and all other slots keep their values |
| Isolation.InitStaticsRel | nsc-0.5.2/globaliser/node.cc:1075-1171 | the copies of an initialiser give slot k of every static the initial value of the original, for every k |
| Isolation.LoadTopsRel | nsc-0.5.2/globaliser/node.cc:1433-1447 | a whole file loads into an image that every stack sees as the image of the original file |
| Isolation.InvocationIsolated | nsc-0.5.2/globaliser/node.cc:1454-1617 | one call by stack k changes only slot k of each globalised variable, and changes it as the original changes its variable |
| Isolation.RunsRel | nsc-0.5.2/globaliser/node.cc:1454-1617 | for every interleaving of calls by several stacks, each stack's view at the end is what its own calls alone would have left |
| Isolation.SharedProcessIsIsolated | nsc-0.5.2/globaliser/node.cc:1454-1617 | for every program, number of stacks and interleaving: the shared process completes if and only if every stack would complete alone, and then shows each stack its own memory |
| Tables.HandleDecls | nsc-0.5.2/globaliser/node.cc:1361-1398 | declaring statics leaves the list of automatics as it was |
| Tables.PopStatics | nsc-0.5.2/globaliser/node.cc:1523-1528 | popping n statics takes exactly the last n off the list and leaves the automatics and the array numbers as they were |
| Tables.HgrMember | nsc-0.5.2/globaliser/node.cc:1502-1518 | a statement adds exactly the automatics it counts to the end of the list |
| Tables.HgrList | nsc-0.5.2/globaliser/node.cc:1494-1518 | a list of statements adds exactly the automatics it counts |
| Tables.HgrScope | nsc-0.5.2/globaliser/node.cc:1494-1564 | every scope of every program ends with the list of automatics it began with |
| Rewriter.Globaliser.FindMangled | nsc-0.5.2/globaliser/handle_global.cc:346-357 | the reverse walk finds the last symbol with a mangled name, and none only if there is none |
| Rewriter.Globaliser.IsRewritten | nsc-0.5.2/globaliser/node.cc:1567-1613 | the sequence of tests decides as the tables say, automatics first |
| Rewriter.Globaliser.HandleReference | nsc-0.5.2/globaliser/handle_global.cc:817-861 | a reference becomes the slot of the current stack, is left alone, or is an error |
| Rewriter.Globaliser.Declarator | nsc-0.5.2/globaliser/node.cc:1028-1171 | one declarator, by the old or the new method, updates the lists and the symbol table in place as the tables say |
| Rewriter.Globaliser.HandleGlobal | nsc-0.5.2/globaliser/node.cc:1389-1398 | all declarators of a declaration, in order |
| Rewriter.Globaliser.AddLocals | nsc-0.5.2/globaliser/node.cc:1359-1388 | pushes all declarators of a declaration and counts them |
| Rewriter.Globaliser.LeaveScope | nsc-0.5.2/globaliser/node.cc:1520-1528 | the two popping loops undo as many entries as were counted |
| Rewriter.Globaliser.Member | nsc-0.5.2/globaliser/node.cc:1502-1518 | the in-place step for one statement equals the step on tables |
| Rewriter.Globaliser.Scope | nsc-0.5.2/globaliser/node.cc:1494-1529 | the in-place pass over a scope equals the pass on tables, so the proofs about tables hold of it |
| Rewriter.Globaliser.TopLevel | nsc-0.5.2/globaliser/handle_global.cc:197-287 | functions, enumerators and globals at file level enter the symbol table as the tables say |
| Rewriter.Globaliser.TranslationUnit | nsc-0.5.2/globaliser/node.cc:1454-1617 | the pass over a whole file equals the pass on tables |
| Leftovers.ReferenceOutcome | nsc-0.5.2/globaliser/node.cc:1567-1613 | on every table: a reference stays as it is if and only if the name is a listed automatic, a function, an enumerator or known to neither list nor table; any other becomes the slot of its last mangled symbol, or is an error if it has none |
| Leftovers.InitialiserOutcome | nsc-0.5.2/globaliser/node.cc:1567-1613 | the same of a reference in an initialiser |
| Leftovers.DefinitionOutcome | nsc-0.5.2/globaliser/handle_global.cc:197-287 | when a name is entered at file level, and when it collides with what it was before |
| ScopeDiscipline.ScopeStatics | nsc-0.5.2/globaliser/node.cc:1393-1395 | the list of statics grows over a scope by exactly those that a later declaration's count has overwritten |
| ScopeDiscipline.StaticsRestoredIff | nsc-0.5.2/globaliser/node.cc:1393-1395 | a scope ends with the list of statics it began with if and only if no statement list in it has two static declarations |
| ScopeDiscipline.LatestExt | nsc-0.5.2/globaliser/handle_global.cc:346-357 | unmangled leftovers at the end of an entry do not change the latest mangled symbol |
| ScopeDiscipline.PopAll | nsc-0.5.2/globaliser/handle_global.cc:336-344 | popping the statics of a scope takes one symbol off the entry of each of them and none off any other |
| Refinement.LvalRefines | nsc-0.5.2/globaliser/node.cc:1567-1613 | an identifier is rewritten as C's scopes demand exactly if the tool does not list an automatic of that name |
| Refinement.DeclsRefine | nsc-0.5.2/globaliser/node.cc:1075-1171 | a static declaration is rewritten as it ought to be exactly if no initialiser of it refers to a hidden variable |
| Refinement.ScopeRefines | nsc-0.5.2/globaliser/node.cc:1494-1564 | a disciplined scope is rewritten as it ought to be exactly if none of its references is hidden, and all symbols resolve afterwards as before |
| Refinement.LookupsSurvive | nsc-0.5.2/globaliser/handle_global.cc:242-356 | after a disciplined scope every identifier has the latest mangled symbol it had before |
| Refinement.ToolIsRightIff | nsc-0.5.2/globaliser/node.cc:1454-1617 | on every well-behaved file, whatever it uses that it declares nowhere, the tool does not fail, and its output is the globalised program if and only if no reference to a globalised variable is hidden by a listed automatic |
| Refinement.ForeignCallStays | nsc-0.5.2/globaliser/node.cc:1596-1603 | a file that calls a function it declares nowhere passes unchanged |
| Refinement.ToolIsolatesStacks | nsc-0.5.2/globaliser/node.cc:1454-1617 | what the tool writes runs every stack as the original program would run alone |
| Leftovers.ScopeLeaves | nsc-0.5.2/globaliser/node.cc:1494-1529 | over every scope of every program, what the list of statics and the entry of a name gain is a function of the text alone: which names stay listed, and which symbols, unmangled, of the old or of the new method, stay on top |
| Leftovers.CountedScope | nsc-0.5.2/globaliser/handle_global.cc:242-344 | a scope leaves one symbol for each declarator of a name, at any depth, and one more for each place that the name keeps on the list |
| Leftovers.KindSurvivesIff | nsc-0.5.2/globaliser/handle_global.cc:265-277 | after any function body a function or enumerator is still known as one if and only if no static of that name is declared at any depth |
| Leftovers.TopsKeepNumbers | nsc-0.5.2/globaliser/handle_global.cc:931-939 | at every point of every file all array numbers in the symbol table have been given out, so a new one is new |
| Leftovers.LatestSurvivesIff | nsc-0.5.2/globaliser/handle_global.cc:336-357 | after any scope the latest mangled symbol of a name is the one before it if and only if none is left, or the last one left is a scalar's and a scalar's was the latest |
| Leftovers.ReferenceSurvivesIff | nsc-0.5.2/globaliser/node.cc:1567-1613 | exactly when a reference behind a scope becomes what it would have become in front of it, for every scope of every program |
| Leftovers.LookupSurvivesIff | nsc-0.5.2/globaliser/handle_global.cc:336-357 | with one static declaration a list, the latest mangled symbol survives if and only if statics of the name never nest, or what the nesting leaves has the old name |
| Leftovers.AllReferencesSurviveIff | nsc-0.5.2/globaliser/node.cc:1567-1613 | the same for all names at once |
| Leftovers.NestedIff | nsc-0.5.2/globaliser/handle_global.cc:336-344 | with one static declaration a list, no mangled symbol of a name is left if and only if no static of that name is declared in the scope of another |
| Leftovers.OverwrittenStays | nsc-0.5.2/globaliser/node.cc:1393-1395 | of two static declarations in a list, the symbols of a name that only the first declares all stay |
| Leftovers.DeclaratorExitsIff | nsc-0.5.2/globaliser/node.cc:1028-1171 | a declarator stops the tool if and only if its name is taken by something that is no variable or its initialiser names a rewritten variable that has no mangled symbol when it is read |
| Counterexamples.ShadowedStaticIsMissed | nsc-0.5.2/globaliser/node.cc:1570-1573 | a file with a static in a block under an automatic of the same name: the tool's output is not the globalised program |
| Counterexamples.ShadowRunsApart | nsc-0.5.2/globaliser/node.cc:1570-1573 | the same file run by stack k: the original static holds 5 and the slot of stack k still 0 |
| Counterexamples.TwoDeclarationsLeaveTheFirst | nsc-0.5.2/globaliser/node.cc:1393-1395 | after a scope with two static declarations the first name is still listed and still resolves to the dead array |
| Counterexamples.TwoDeclarationsAreWrong | nsc-0.5.2/globaliser/node.cc:1393-1395 | a file with two such declarations in which a later function gets the dead array instead of the global |
| Counterexamples.ArrayScope | nsc-0.5.2/globaliser/handle_global.cc:336-344 | a scope with one static array leaves one unmangled symbol behind |
| Counterexamples.NestedStaticsGoStale | nsc-0.5.2/globaliser/handle_global.cc:336-344 | after two nested statics of one name the outer array is still the answer |
| Counterexamples.NestedStaticsAreWrong | nsc-0.5.2/globaliser/handle_global.cc:336-357 | a file with nested statics in which a later function gets the dead array instead of the global |
| Counterexamples.StaticNamedLikeFunction | nsc-0.5.2/globaliser/handle_global.cc:265-277 | a static named like a function hides the function for the rest of the file |
| Counterexamples.KindFileExits | nsc-0.5.2/globaliser/handle_global.cc:346-357 | a file that declares a function or an enumerator, a static of the same name and a use of the former: the tool stops with an error |
| Counterexamples.SelfReferringArrayExits | nsc-0.5.2/globaliser/node.cc:1137-1162 | the new method reads the initialiser before it defines the mangled name, so a self-referring array is an error |
| GlobalNames.SpellInjective | nsc-0.5.2/globaliser/handle_global.cc:905-953 | instance, array and old-method names and unreserved source names differ whenever their arguments or kinds differ |
| GlobalNames.TypeNamesApart | nsc-0.5.2/globaliser/handle_global.cc:941-948 | type names are injective and differ from all other names |
| GlobalNames.ReservedIff | nsc-0.5.2/globaliser/handle_global.cc:905-953 | the form of a name decides whether some variable, stack and number make the globaliser invent it |
| GlobalNames.OwnSpellingIff | nsc-0.5.2/globaliser/handle_global.cc:905-953 | a source name is spelled like no other identifier and no generated type if and only if it is not of a reserved form |
| GlobalNames.ReservedNamesClash | nsc-0.5.2/globaliser/handle_global.cc:950-953 | a source name that begins like a generated one can equal a generated one |
| GlobalNames.Find | nsc-0.5.2/globaliser/handle_global.cc:982-982 | the first occurrence of a pattern, or the end of the text if there is none |
| GlobalNames.PrefixStep | nsc-0.5.2/globaliser/handle_global.cc:982-984 | replacing one prefix of stack 0 removes one occurrence and leaves the final text unchanged |
| GlobalNames.ReplaceToplevel | nsc-0.5.2/globaliser/handle_global.cc:972-985 | the loop ends on every text, and the result is the text with all prefixes of stack 0 turned into those of stack k, read from the left |
| GlobalNames.HoleStep | nsc-0.5.2/globaliser/handle_global.cc:995-997 | replacing one subscript removes one occurrence and leaves the final text unchanged |
| GlobalNames.OldReplaceToplevel | nsc-0.5.2/globaliser/handle_global.cc:987-998 | the loop ends on every text, and no stack subscript is left |
| StackCopies.AllMiddle | nsc-0.5.2/globaliser/handle_global.cc:972-985 | in an initialiser of any shape the first loop moves exactly the references to instances to stack k |
| StackCopies.AllFinal | nsc-0.5.2/globaliser/handle_global.cc:987-998 | and the second loop fills in exactly the subscripts |
| StackCopies.CopyFor | nsc-0.5.2/globaliser/node.cc:1104-1112 | both loops in a row give the initialiser of stack k if and only if no text or name holds one of the patterns by accident, and they always leave neither pattern behind |
| StackCopies.CopyIsRightIff | nsc-0.5.2/globaliser/handle_global.cc:972-998 | every initialiser that is printed with its references apart from other identifiers: its copy for stack k is right if and only if it holds neither pattern by accident |
| StackCopies.NoPrefixLeft | nsc-0.5.2/globaliser/handle_global.cc:982-984 | after the substitution no prefix of stack 0 is left, overlapping ones included |
| StackCopies.InstanceRenamedIff | nsc-0.5.2/globaliser/handle_global.cc:972-985 | an instance comes out under the name it is declared with if and only if the name of the variable hides no prefix |
| StackCopies.TemplateCopied | nsc-0.5.2/globaliser/node.cc:1104-1112 | the printed text of a rewritten initialiser becomes the printed text of the copy that the tables give to stack k, under the same condition |
| StackCopies.OrdinaryIsUntouched | nsc-0.5.2/globaliser/handle_global.cc:972-998 | text without 'G' and '[' and names without 'G' meet that condition |
| StackCopies.OuterEndsAreFree | nsc-0.5.2/globaliser/node.cc:1104-1112 | an initialiser may be empty and may begin and end with a reference, a number or an identifier |
| StackCopies.PrefixLikeNameIsRenamed | nsc-0.5.2/globaliser/handle_global.cc:972-985 | an instance of a variable named like a prefix comes out under another name than the one it is declared with |
| ExternRegistry.Registry.Declaration | nsc-0.5.2/globaliser/handle_global.cc:580-589 | an extern array's initialiser joins those pending for its identifier |
| ExternRegistry.Registry.Reference | nsc-0.5.2/globaliser/handle_global.cc:594-599 | a reference releases every pending initialiser of its identifier and no other |
| ExternRegistry.Registry.BlankUnreferenced | nsc-0.5.2/globaliser/handle_global.cc:605-618 | exactly the nodes still pending lose their text |
| ExternRegistry.StillPending | nsc-0.5.2/globaliser/handle_global.cc:575-618 | an initialiser is pending if and only if no reference to its identifier has come after it |
| ExternRegistry.ReadFile | nsc-0.5.2/globaliser/handle_global.cc:575-618 | for every sequence of declarations and references, an initialiser is blank at the end if and only if no later reference to its identifier occurs |
| Lexer.Scanner.ParseAttr | nsc-0.5.2/globaliser/ilex.cc:62-83 | takes an attribute up to the parenthesis that closes it; what fails an assertion or never ends is reported |
| Lexer.Scanner.SkipGap | nsc-0.5.2/globaliser/ilex.cc:104-118 | separates white space from attributes up to the next token |
| Lexer.Scanner.Yylex | nsc-0.5.2/globaliser/ilex.cc:96-153 | returns the token held back with what follows it, and holds back the next; the first call also prints the leading white space |
| Lexer.NothingIsLost | nsc-0.5.2/globaliser/ilex.cc:96-153 | for every token stream, all lexemes that are not white space are delivered once, in order; without attributes the white space is too |
| Lexer.ByteForByte | nsc-0.5.2/globaliser/ilex.cc:96-153 | without attributes every stream is delivered, and its text is the input byte for byte |
| Lexer.TokenText | nsc-0.5.2/globaliser/ilex.cc:104-153 | the text of a token is its own lexeme, the white space behind it in order, and the attributes behind it in order, each up to the parenthesis that closes it and with a blank |
| Lexer.FirstText | nsc-0.5.2/globaliser/ilex.cc:96-118 | in front of the first token the white space is put out and the attributes are kept |
| Lexer.ReadAll | nsc-0.5.2/globaliser/ilex.cc:96-153 | calling the scanner up to the end of input puts out and returns exactly what the stream delivers, or fails exactly when it delivers nothing |
| WorkerPool.StepKeepsInv | ns-3.11/test.py:872-936 | every step of every thread keeps: each dispatched job in one place, tokens behind jobs, verdicts that fit the job and the flag, counters that fit the results |
| WorkerPool.RunsKeepInv | ns-3.11/test.py:1439-1483 | so does every run |
| WorkerPool.StepsRunOut | ns-3.11/test.py:872-936 | every step of every thread lowers a bound on the steps that remain |
| WorkerPool.RunsAreBounded | ns-3.11/test.py:872-936 | no run is longer than that bound |
| WorkerPool.NoDeadlock | ns-3.11/test.py:1439-1483 | with a worker, or without jobs, some thread can move until the run has returned |
| WorkerPool.NoWorkersDeadlock | ns-3.11/test.py:1457-1458 | without workers no run that has a job ever returns, and in the collecting state no thread can move |
| WorkerPool.CompleteRun | ns-3.11/test.py:1653-1656 | every complete run, whenever the interrupt comes: one result for each job, one break token for each worker, nothing left over, and exit status 0 if and only if no job failed, crashed, had valgrind errors or was broken off |
| WorkerPool.CollectedIsMade | ns-3.11/test.py:872-936 | a finished run has collected exactly the results that its steps made, each once and unchanged |
| WorkerPool.JobComesBack | ns-3.11/test.py:881-936 | a job comes back with the return code of the step that ran it, broken off if it was taken while the flag was up, skipped if it is marked so |
| WorkerPool.FlagIff | ns-3.11/test.py:491-493 | the flag is up if and only if the signal handler has run |
| WorkerPool.StatusIsOfCodes | ns-3.11/test.py:1439-1656 | the exit status is 0 if and only if every job that was run returned 0 and none was broken off |
| WorkerPool.ScoreCounts | ns-3.11/test.py:1453-1483 | each number of the score counts the results of its kind |
| WorkerPool.EveryRunCompletes | ns-3.11/test.py:1439-1483 | every run is bounded and can be continued until it has returned |
| WorkerPool.Collect | ns-3.11/test.py:1453-1483 | the counting loop gives the score of the results, and status 0 exactly if all are good |
| IPv6Text.FullAccepted | nsc-0.5.2/omnetpp/IPv6Address.cc:71-109 | eight group texts between colons are accepted as those groups |
| IPv6Text.GapAccepted | nsc-0.5.2/omnetpp/IPv6Address.cc:84-109 | groups around "::" are accepted as the left groups, zeros and the right groups |
| IPv6Text.ParserIsNotation | nsc-0.5.2/omnetpp/IPv6Address.cc:49-120 | for every text and every eight groups: the parser returns them if and only if the text denotes them in the colon notation of section 2.2 of RFC 3513, whose groups are what strtoul takes for a number and whose "::" may stand for no group |
| IPv6Numbers.GroupTextIff | nsc-0.5.2/omnetpp/IPv6Address.cc:49-69 | a text is a group of some value if and only if it is blanks, a sign, a prefix and hexadecimal digits, and the number or its negative is that value modulo 32 bits |
| IPv6Numbers.HexLaw | nsc-0.5.2/omnetpp/IPv6Address.cc:197-203 | groups are printed in lower case without leading zeros |
| IPv6Text.StrictUnlessEmptyGap | nsc-0.5.2/omnetpp/IPv6Address.cc:84-120 | an accepted text has a "::" for at least one group or none at all, unless eight groups stand around the "::" |
| IPv6Text.EmptyGapAccepted | nsc-0.5.2/omnetpp/IPv6Address.cc:84-120 | any eight groups with a "::" among them are accepted |
| WordHalves.HalvesValue | nsc-0.5.2/omnetpp/IPv6Address.cc:84-109 | the first group of a word is its more significant half |
| IPv6Address.ParseOctals | nsc-0.5.2/omnetpp/IPv6Address.cc:49-69 | the loop stores at most eight groups, stops just behind the text it consumed, and stores what the notation says |
| IPv6Address.MergeSuffix | nsc-0.5.2/omnetpp/IPv6Address.cc:84-103 | right groups move to the end and zeros fill the middle, in place |
| IPv6Address.FindGap | nsc-0.5.2/omnetpp/IPv6Address.cc:151-176 | the leftmost longest run of at least two zero groups, or an empty gap if there is none |
| IPv6Address.GapUnique | nsc-0.5.2/omnetpp/IPv6Address.cc:151-176 | that description fits one gap only |
| IPv6Address.RenderReadsBack | nsc-0.5.2/omnetpp/IPv6Address.cc:178-205 | the text printed around any run of zeros parses back to the groups |
| IPv6Address.Address.TryParse | nsc-0.5.2/omnetpp/IPv6Address.cc:71-120 | succeeds on exactly the texts of the notation, stores their words, and leaves the object alone when no address is found |
| IPv6Address.Address.Str | nsc-0.5.2/omnetpp/IPv6Address.cc:178-205 | prints around the leftmost longest gap, and what it prints parses back |
| IPv6Address.PrintAndParse | nsc-0.5.2/omnetpp/IPv6Address.cc:49-205 | for every 128-bit address, parsing the printed text succeeds and restores it |
| IPv6Prefix.MaskIsPrefix | nsc-0.5.2/omnetpp/IPv6Address.cc:260-301 | the mask of length n has ones in exactly the first n of 128 bits |
| IPv6Prefix.ConstructMask | nsc-0.5.2/omnetpp/IPv6Address.cc:260-301 | the case distinction over four words builds that mask |
| IPv6Prefix.PrefixBits | nsc-0.5.2/omnetpp/IPv6Address.cc:303-311 | getPrefix keeps exactly the first n bits |
| IPv6Prefix.Recombine | nsc-0.5.2/omnetpp/IPv6Address.cc:303-322 | prefix and suffix have no bit in common and together are the address |
| IPv6Prefix.MatchesIsEqualPrefix | nsc-0.5.2/omnetpp/IPv6Address.cc:361-371 | matching means equal prefixes |
| IPv6Prefix.MatchesIsBitwise | nsc-0.5.2/omnetpp/IPv6Address.cc:361-371 | matching means agreement on the first n bits and nothing else |
| IPv6Prefix.MatchesShorter | nsc-0.5.2/omnetpp/IPv6Address.cc:361-371 | a match at one length is a match at every shorter length |
| IPv6Prefix.MixPrefix | nsc-0.5.2/omnetpp/IPv6Address.cc:324-351 | setting a prefix replaces exactly the first n bits |
| IPv6Prefix.MixRestores | nsc-0.5.2/omnetpp/IPv6Address.cc:324-351 | after setting a prefix the prefix is that of the other address and the suffix is the old one |
| IPv6Prefix.SetPrefix | nsc-0.5.2/omnetpp/IPv6Address.cc:324-336 | overwrites the prefix in place, also from the object itself |
| IPv6Prefix.SetSuffix | nsc-0.5.2/omnetpp/IPv6Address.cc:339-351 | overwrites the suffix in place |
| IPv4Address.ParserIsNotation | nsc-0.5.2/omnetpp/IPAddress.cc:85-122 | for every text and address: the parser returns the address if and only if the text is four strings of digits of value at most 255 between dots, or the word for the null address |
| IPv4Address.ParseIPAddress | nsc-0.5.2/omnetpp/IPAddress.cc:85-122 | the loops accept exactly this notation and store its four bytes |
| IPv4Address.PrintedReadsBack | nsc-0.5.2/omnetpp/IPAddress.cc:85-158 | for every address, parsing its text restores it |
| IPv4Address.ColonIsNoQuad | nsc-0.5.2/omnetpp/IPAddress.cc:85-122 | a text with a colon is no IPv4 address |
| IPv4Prefix.PrefixMatchesIffAgree | nsc-0.5.2/omnetpp/IPAddress.cc:256-272 | the masked comparison means agreement on the first n bits, for n from 0 to 32 |
| IPv4Prefix.NumMatchingPrefixBits | nsc-0.5.2/omnetpp/IPAddress.cc:274-290 | the loop counts the equal bits from the left up to the first difference |
| IPv4Prefix.KeepFirstIsMask | nsc-0.5.2/omnetpp/IPAddress.cc:302-315 | truncating byte by byte is masking the word |
| IPv4Prefix.KeepFirstBits | nsc-0.5.2/omnetpp/IPAddress.cc:302-315 | truncates in place |
| IPv4Prefix.ThreeWaysAgree | nsc-0.5.2/omnetpp/IPAddress.cc:256-315 | for every pair of addresses and n from 0 to 32: prefixMatches, a count of at least n, and equal truncated addresses are the same thing |
| IPvXAddress.Address.Set6 | nsc-0.5.2/omnetpp/IPvXAddress.h:117-126 | a null IPv6 address is kept as a null IPv4 address |
| IPvXAddress.Address.TryParse | nsc-0.5.2/omnetpp/IPvXAddress.cc:22-41 | IPv4 first, then IPv6, and no change if neither fits |
| IPvXAddress.Address.Str | nsc-0.5.2/omnetpp/IPvXAddress.h:173-173 | the text of an IPv6 address never passes for an IPv4 one and parses back |
| IPvXAddress.PrintAndParse | nsc-0.5.2/omnetpp/IPvXAddress.h:88-173 | for every address the setters can store, parsing its text restores family and value |
| PipelineParse.Pipeline.Feed | ns-3.11/waf-tools/shellcmd.py:138-197 | one token changes the object, the mode and the pending assignments as the machine says; a failed assertion is reported |
| PipelineParse.Pipeline.Parse | ns-3.11/waf-tools/shellcmd.py:120-200 | the loop over the tokens runs the machine to the end |
| PipelineParse.EnvMatchSomeIff | ns-3.11/waf-tools/shellcmd.py:23-23 | a token is taken for an assignment if and only if it is a word, an equals sign and a value without blanks |
| PipelineParse.EnvMatchIff | ns-3.11/waf-tools/shellcmd.py:138-140 | and then the name is what stands in front of the equals sign and the value what stands behind it |
| PipelineParse.ParsedIsLine | ns-3.11/waf-tools/shellcmd.py:120-200 | every accepted token list is the flat form of exactly one line, in which exactly the commands before a pipe write to it |
| PipelineSyntax.ParsesWhatIsMeant | ns-3.11/waf-tools/shellcmd.py:120-200 | every text made of plain words, assignments and redirections in any order is accepted exactly if no stream is redirected twice, and yields the line that is meant |
| PipelineWords.CommandIsAsked | ns-3.11/waf-tools/shellcmd.py:135-200 | the command of a text has its name and arguments in order, the last value of each variable and no other, and each stream where the words send it; there is none if and only if a stream is redirected twice |
| PipelineWords.AssignmentIsSet | ns-3.11/waf-tools/shellcmd.py:138-153 | a variable in front of a command is set for it |
| PipelineWords.CdTakesNoVariable | ns-3.11/waf-tools/shellcmd.py:143-146 | a variable in front of cd is an error, whatever follows |
| PipelineWords.CdTakesOneDirectory | ns-3.11/waf-tools/shellcmd.py:179-186 | a second directory behind cd is an error, whatever follows |
| PipelineRun.ExecPipedCommands | ns-3.11/waf-tools/shellcmd.py:202-211 | waits for all processes in order; the status is that of the last one |
| PipelineRun.Spawn | ns-3.11/waf-tools/shellcmd.py:243-291 | opens the files of a command, connects its input to its predecessor if there is a pipe, and launches it in the current directory |
| PipelineRun.RunCommand | ns-3.11/waf-tools/shellcmd.py:234-345 | one turn of the loop leaves the meaning of the rest of the line unchanged, or ends with it |
| PipelineRun.RunNodes | ns-3.11/waf-tools/shellcmd.py:213-345 | for every line and all exit statuses, the loop has the launches, waits, files and status of the recursive evaluation of pipes under right-nested operators |
| PipelineParse.ParseAndRun | ns-3.11/waf-tools/shellcmd.py:120-345 | every token list is rejected, or runs as the line it denotes |
| PipelineLaws.RunsAreTidy | ns-3.11/waf-tools/shellcmd.py:213-345 | in every run a process reads from its predecessor exactly if that one writes to a pipe; a run that ends has waited for each process once, in order, and closed every file it opened |
| PipelinePlaces.EnterIsPlace | ns-3.11/waf-tools/shellcmd.py:224-230 | after any cds the directory is the last absolute one among them, or the starting one, and each later one below it with one slash between |
| PipelinePlaces.RunsFollowTheLine | ns-3.11/waf-tools/shellcmd.py:213-345 | in every run the processes launched are commands from the front of the line in order, each in the directory that all cds in front of it lead to, with its input from its file, the process in front of it or the terminal |
| PipelinePlaces.FilesLaw | ns-3.11/waf-tools/shellcmd.py:246-280 | the files of a command are its input unless a pipe feeds it, and its outputs unless they are the null device |
| PipelineLaws.AgreesWithPosixIff | ns-3.11/waf-tools/shellcmd.py:307-345 | a run equals the left-associative one if and only if it does not stop at an operator that has one of the other kind behind it |
| PipelineLaws.PosixOnAllStatusesIff | ns-3.11/waf-tools/shellcmd.py:307-345 | the two readings of a line agree under all exit statuses if and only if the line ends in its first pipe or does not mix the operators |
| PipelineLaws.MixedLineDiffers | ns-3.11/waf-tools/shellcmd.py:327-341 | `a || b && c` after a successful `a`: one process is launched instead of two |
| TypeGraph.EdgesLaw | ns-3.11/utils/print-introspected-doxygen.cc:173-250 | the edges of a type are its attributes that point to objects or vectors, the types that descend from it, and the other sides of its aggregations |
| TypeGraph.WalksAreSimple | ns-3.11/utils/print-introspected-doxygen.cc:165-250 | the search finds a walk exactly if it repeats no type and avoids the current path |
| TypeGraph.WalksDistinct | ns-3.11/utils/print-introspected-doxygen.cc:165-250 | and finds each walk once |
| TypeGather.StaticInformation.HasAlreadyBeenProcessed | ns-3.11/utils/print-introspected-doxygen.cc:128-139 | says whether a type is on the current path |
| TypeGather.StaticInformation.GetCurrentPath | ns-3.11/utils/print-introspected-doxygen.cc:110-120 | the steps of the current path, each behind a slash |
| TypeGather.StaticInformation.DoGather | ns-3.11/utils/print-introspected-doxygen.cc:165-250 | ends on every graph, restores both stacks, and appends one entry for each simple walk in depth-first order |
| TypeGather.EntriesReached | ns-3.11/utils/print-introspected-doxygen.cc:165-250 | an entry is found exactly if it belongs to some simple walk from the root |
| TypeGather.PathReadsBack | ns-3.11/utils/print-introspected-doxygen.cc:110-120 | steps without slashes can be read off the text of a path, in order |
| TypeGather.StaticInformation.Gather | ns-3.11/utils/print-introspected-doxygen.cc:156-163 | afterwards the list is strictly sorted and holds the old entries and those of all simple walks from the new root |
| SortedEntries.TextLessIff | ns-3.11/utils/print-introspected-doxygen.cc:161-162 | paths are ordered as in a dictionary |
| SortedEntries.StrictByType | ns-3.11/utils/print-introspected-doxygen.cc:161-162 | in the sorted list the types ascend, and the paths of one type as in a dictionary |
| SortedEntries.SortSorts | ns-3.11/utils/print-introspected-doxygen.cc:161-161 | sorting gives an ascending permutation |
| SortedEntries.UniqueIsStrict | ns-3.11/utils/print-introspected-doxygen.cc:162-162 | removing equal neighbours of a sorted list leaves the same elements, each once |
| SortedEntries.StrictIsUnique | ns-3.11/utils/print-introspected-doxygen.cc:161-162 | a strictly sorted list is determined by its elements, so the sorting method does not matter |
| TcpSocket.OneOpenPerConnection | nsc-0.5.2/omnetpp/TCPSocket.cc:94-293 | whatever is called and whatever TCP indicates, a socket sends at most one OPEN for each connection number |
| TcpSocket.PerformAll | nsc-0.5.2/omnetpp/TCPSocket.cc:94-293 | any calls and indications on one object: it sends what the specification sends, and a fresh one opens no connection number twice |
| TcpLaws.SentByCalls | nsc-0.5.2/omnetpp/TCPSocket.cc:94-293 | whatever is called and indicated, a socket sends, call by call up to the first that fails, what the call asks for, with its number and its local end |
| TcpLaws.CommandsAreAsked | nsc-0.5.2/omnetpp/TCPSocket.cc:94-197 | every command of a socket carries the address and port, the fork or the bytes of the call that sent it and the local end of the last bind since the last renewal |
| TcpLaws.CallsAllowed | nsc-0.5.2/omnetpp/TCPSocket.cc:94-197 | which calls fail in which states and for which ports |
| TcpLaws.OverIsOver | nsc-0.5.2/omnetpp/TCPSocket.cc:161-197 | a socket that was closed or aborted sends nothing more but an abort, until it is renewed or the peer answers late |
| TcpLaws.IndicationLaw | nsc-0.5.2/omnetpp/TCPSocket.cc:234-293 | what each indication makes of a socket |
| TcpLaws.HalfClosed | nsc-0.5.2/omnetpp/TCPSocket.cc:161-184 | a connection closed by the peer can still send |
| NscTcp.LastPortIsLost | nsc-0.5.2/omnetpp/NSC_TCP.cc:530-593 | with an address and a valid port, an active or passive open stops the simulation for want of a port if and only if the port is 65535 |
| NscTcp.Module.PollAccepting | nsc-0.5.2/omnetpp/NSC_TCP.cc:281-313 | erasing while walking takes exactly the accepted connections off the list and gives them a socket |
| TcpSystem.HandleKeeps | nsc-0.5.2/omnetpp/NSC_TCP.cc:526-636 | a command in its place among the commands of its connection never meets a second socket or a missing one |
| TcpSystem.StepKeepsInv | nsc-0.5.2/omnetpp/NSC_TCP.cc:281-369 | every step of applications, gates, module and network keeps the invariant that ties sockets, queues and the connection table together |
| TcpSystem.SystemIsSafe | nsc-0.5.2/omnetpp/NSC_TCP.cc:526-636 | in every run the no-socket-yet assertions hold and SEND finds its socket; connections to accept are distinct, listening and not accepted; each connection is opened at most once |
| TcpLaws.RunCommandsAreAsked | nsc-0.5.2/omnetpp/TCPSocket.cc:94-197 | in every run each command on its way or handled was asked for by a call and carries its addresses and ports and the local end of its socket then |
| TcpLaws.ConnectOpens | nsc-0.5.2/omnetpp/NSC_TCP.cc:526-566 | a first connect to a given address and a port below 65535, delivered, opens the connection |
| TcpLaws.OpenedHaveSockets | nsc-0.5.2/omnetpp/NSC_TCP.cc:526-566 | in every run a connection whose active OPEN was handled has its socket |
| TcpLaws.HandleHalts | nsc-0.5.2/omnetpp/NSC_TCP.cc:526-636 | for every command, when the module stops and why |
| TcpLaws.HandleEntry | nsc-0.5.2/omnetpp/NSC_TCP.cc:526-636 | and otherwise what it knows of the connection then |
| TcpLaws.PollLaw | nsc-0.5.2/omnetpp/NSC_TCP.cc:281-313 | exactly the waiting connections that are handed over get a socket and wait no longer |
| TcpSimulation.Simulation.CallSocket | nsc-0.5.2/omnetpp/TCPSocket.cc:94-293 | a call on a socket object changes sockets and gates as the step of the system does, or fails exactly when that stops |
| TcpSimulation.Simulation.DeliverCommand | nsc-0.5.2/omnetpp/NSC_TCP.cc:526-636 | the module object handles the oldest command of a gate as the step of the system does, or stops for the same reason |
| TcpSimulation.Simulate | nsc-0.5.2/omnetpp/NSC_TCP.cc:281-636 | every interleaving run on the objects ends as the system does, with all objects in the states of the system; no assertion fails and no missing socket is used |
| ClassHierarchy.GetMro | pybindgen-0.15.0.785/pybindgen/cppclass.py:853-867 | the loop over the queue ends on every acyclic hierarchy (the summed numbers of ways up fall) and yields what the recursive walk yields |
| ClassHierarchy.MroIsAncestors | pybindgen-0.15.0.785/pybindgen/cppclass.py:853-867 | the walk yields a class if and only if it is the class itself or one of its ancestors, itself first |
| ClassHierarchy.DerivedFirst | pybindgen-0.15.0.785/pybindgen/cppclass.py:853-867 | every class but the first comes after a class that derives from it directly |
| ClassHierarchy.MroIsChain | pybindgen-0.15.0.785/pybindgen/cppclass.py:853-867 | with single inheritance the walk is the chain of bases, each once |
| ClassHierarchy.DiamondRepeats | pybindgen-0.15.0.785/pybindgen/cppclass.py:861-867 | the top of a diamond is yielded twice |
| ClassHierarchy.MroCount | pybindgen-0.15.0.785/pybindgen/cppclass.py:853-867 | on every acyclic hierarchy a class is yielded as often as the classes in front of its first occurrence name it as a base |
| ClassHierarchy.MroFirsts | pybindgen-0.15.0.785/pybindgen/cppclass.py:853-867 | the first occurrences in the walk are the breadth-first order of the hierarchy, in which each class is queued once |
| ClassHierarchy.MroRepeatsIff | pybindgen-0.15.0.785/pybindgen/cppclass.py:861-867 | some class is yielded twice if and only if in the breadth-first order the classes in front of some class name it at two places |
| ClassHierarchy.TreesDoNotRepeat | pybindgen-0.15.0.785/pybindgen/cppclass.py:861-867 | no class is yielded twice where every ancestor is named once among the ancestors |
| ClassHierarchy.IsSubclass | pybindgen-0.15.0.785/pybindgen/cppclass.py:921-926 | true exactly for ancestors |
| PureVirtual.Search | pybindgen-0.15.0.785/pybindgen/cppclass.py:889-914 | the nested loops find whether some pure method is implemented in no class behind it |
| PureVirtual.Cache.HavePureVirtualMethods | pybindgen-0.15.0.785/pybindgen/cppclass.py:877-916 | a fresh check searches; later ones repeat its answer |
| PureVirtual.PureIffLastIsPure | pybindgen-0.15.0.785/pybindgen/cppclass.py:889-914 | the answer is yes if and only if for some signature the virtual declaration nearest to the leaf is pure |
| PureVirtual.PureOnChains | pybindgen-0.15.0.785/pybindgen/cppclass.py:877-916 | with single inheritance and overriders marked virtual: yes if and only if the most derived declaration of some signature is pure |
| PureVirtual.UnmarkedOverriderIsMissed | pybindgen-0.15.0.785/pybindgen/cppclass.py:903-904 | an overrider not marked virtual does not count |
| PureVirtual.MissedIff | pybindgen-0.15.0.785/pybindgen/cppclass.py:893-911 | for one signature the last virtual and the last declaration differ in being pure if and only if the last virtual one is pure and an unmarked one lies behind it |
| PureVirtual.CheckIsRightIff | pybindgen-0.15.0.785/pybindgen/cppclass.py:889-914 | the whole check is wrong if and only if some last virtual declaration is pure and every such one has an unmarked overrider; it is never wrong in saying no |
| PatchSet.ParsePatchset | ns-3.11/utils/check-style.py:221-265 | the loop reads the lines as the line-by-line machine says, errors included |
| PatchRoundTrip.FeedCounts | ns-3.11/utils/check-style.py:221-265 | every step of the parser adds a chunk line exactly if it reads one |
| PatchRoundTrip.ReadHeadIff | ns-3.11/utils/check-style.py:221-245 | a line is the head of a chunk if and only if it has the form of one, and gives the first number of either pair |
| PatchRoundTrip.ClassifyLaw | ns-3.11/utils/check-style.py:221-265 | which lines are of no kind, and what each other line holds |
| PatchRoundTrip.FeedFailsIff | ns-3.11/utils/check-style.py:221-265 | the parser fails on a line of no kind and on one without a patch or chunk to go to, and on no other |
| PatchRoundTrip.HeadCounts | ns-3.11/utils/check-style.py:168-197 | a written head gives the start and the number of lines of either side |
| PatchRoundTrip.ParsesBackIff | ns-3.11/utils/check-style.py:157-265 | for every patch set without newlines in its names and lines, parsing the written text restores it if and only if no removed line begins with "-- " and no added line with "++ " |
| PatchRoundTrip.HeaderLikeLineIsLost | ns-3.11/utils/check-style.py:221-265 | a removed line that begins with "-- " does not come back |

## Left out

- Globaliser: the parse tree is a value that the pass returns anew; updates of tree nodes in place and sharing of nodes are not modelled.
- Globaliser: statement expressions and declarations in `for` headers (the grammar, parser.yc:1409-1451, has no form for the latter), whose names the pass would leave on its lists past their scope (node.cc:1513); function pointers, linker sections, `typeof`, struct members, the undefined-struct special case, `extern` declarations inside the C fragment (their registry is modelled on its own), K&R parameter lists, and the configuration files with `$ignored` and `$expand_decl`.
- Globaliser: an array is one cell, so that the new method differs from the old one by its names and its table of pointers; `NUM_STACKS` and `get_stack_id()` are parameters.
- C fragment: a run is given a number of steps for loops and calls; both programs run out of it together.
- Names and substitution: the text of a rewritten initialiser is modelled as plain pieces and references; the printing of other tree nodes is not.
- Lexer: the test whether an identifier is a type name; the scanner itself; the text at the end of input is taken to be empty.
- Test runner: a job that never returns, report writing, and the options that choose the jobs; running a job is one step with an arbitrary exit code.
- Command lines: splitting a string into tokens, verbose output (which reads an unset variable), and failures to open a file or to launch a process.
- IPv6: texts have no NUL character, and `strtoul` is that of a 64-bit platform; scopes, link-local construction and the printing of unprintable cases such as "::0", which `Str` proves unreachable.
- IPv4Address.ParseIPAddress: numbers are not bounded, because a number that overflows an `int` has no defined value in the source; netmask lengths and comparisons across families are not modelled.
- Sockets: status requests, sockets forked from an accepted connection, urgent data, timers, the packets themselves, and the allocation of sockets in the stack, which is taken to succeed; a socket keeps the gate it was given; the DATA messages of the module carry no connection number, so they change no socket.
- Type graph: the marking of names with percent signs and the texts printed around the paths; the registry of types is given.
- Class hierarchies: code generation; methods are given by a signature, and objects that are not methods are dropped.
- Patches: reading from a file, `apply`, and the removal of white-space changes.
