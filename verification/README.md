# Mili: a verified model of its regex engine, mesh geometry, stores and formatting

This project models the parts of the Mili I/O library that carry an algorithm, and proves what
they are for. Every operation of the original that changes something in place is a class with
methods, or a method over arrays; each is proved to refine a function on values, and the theorems
are about those functions and about whole runs.

`dafny verify dfyconfig.toml` checks everything.

## The parts

**Regular expressions** (`WIN32-src/win32-regex.c`, modules `Regex*`). A pattern is compiled to
bytecode with relative jumps, inserted and patched in place; a backtracking matcher interprets the
code and rewrites it while it goes; a fastmap speeds up the search.

- *Syntax and meaning*: `RegexSyntax` has the trees, their text and their languages (section 9.4 of
  IEEE Std 1003.1, Base Definitions); `RegexGen` says compositionally which bytes a tree stands
  for; `RegexMeaning` shows that these bytes, read nondeterministically, accept exactly the language.
- *Compiler*: `RegexCompileSpec` is the compiler as a state machine over the pattern text,
  `RegexCompiler` the class that appends, shifts and patches bytes in a growing buffer.
  `RegexCompileProof` shows that the text of every tree compiles to its code, intervals included,
  `RegexBounds` that the bounds of an interval are read as the numbers they are, `RegexOddPatterns`
  what becomes of patterns that are no tree's text: their errors, and the operators, braces and
  parentheses that stand for themselves; `RegexLanding` and
  `RegexLandingProof` show, for every pattern text there is, intervals included, that all addresses
  lead to instructions, turn after turn.
- *Matcher*: `RegexVm` is one instruction of the machine, `RegexVmRun` the whole run with its
  termination, `RegexMatch` the theorem that backtracking finds the longest match; here and below
  trees are without intervals. `RegexSound` says of every such tree, groups repeated at will, that a match reported is a word. Two defects of
  `maybe_pop_jump` are kept as they are: a count byte tested where a character is meant (lines
  4697-4700), and a product cast to a byte (line 4671). `DecisionExact` says exactly when they make
  it decide wrongly.
- *What the defects cost*: `RegexLost` finds, for a loop with a wrong decision that no jump leads
  round, a text of the language on which the matcher finds nothing. So for all patterns without
  `*` and `+` in alternatives and optional groups the matcher is right on all texts if and only if no
  loop has a defect (`RegexSteady`); for the patterns `x*y` that can be told from x and y, and the
  text missed has one character (`RegexDefect`). With a loop in an optional group it is otherwise:
  `(a*[a])?a*` has a defect and is right on all texts (`RegexDetour`). `RegexTame` tells from the
  tree which patterns are safe.
- *Fastmap and search*: `RegexFastmap` walks the code with a stack of pending places (its
  termination, and that its answer is exact); `RegexPattern` is the pattern buffer with the matcher
  and the search in both directions; `RegexTheorems` puts it together: leftmost, and longest.

**Mesh geometry** (`src/mesh_u.c`, `src/mili.c`, modules `Mesh*`). Ids of a class are kept in a
doubly linked list of ranges (`MeshRanges`), which refines set union. A family of files
(`MeshFamily`) holds a record for each range, between entries for meshes, classes and parameters,
in any order of definition, over any run of definitions, updates, loads and closings; loading gives
for each id what was written last. `MeshRuns` goes from an empty family to the arrays loaded.
`MeshReplay` says what the directories and files of a family tell about its meshes, which every
operation keeps up with; `MeshReopen` reads them back from the bytes of a closed family, and what is
loaded then is what was written before.
`MeshLabels` builds blocks of labels and expands them again.

**I/O store and directory** (`src/io_mem.c`, `src/direc.c`). `IoStore` is the store of growing
buffers; over any run, what was written is what was allocated, but for the units taken back before
their output, exactly unless an output resumed at a unit taken back. `Directory` and
`DirectoryLoad` write the directory of a file and read it back.

**Hash table** (`src/gahl.c`, `src/list.h`, modules `HashTable` and `ParamTable`). Chains of entries
with real pointers; a table refines a stack of data for each key. From the files of a family to a
parameter: the one found is the last entry of its name in the last file that has one.

**Control string and column formatting** (`src/mili.c`, `src/eprtf.c`, modules `ControlString`,
`TabFormat`, `Overlay`). The tab formats of a format string are found with the compiled regular
expression itself; the text is written over itself column by column.

## Where the code and its comments differ

- `maybe_pop_jump`: see above. The disabled lines 4692-4695 of `win32-regex.c` are the test meant.
  `a*[a]` does not find the text `a` (`CountByteMisses`), and neither does a repeated set of `a` and
  character 255, followed by `a` (`FullMapMisses`).
- `ios_output` passes over a range taken back that begins exactly where the output resumes, so that
  its units are written all the same: `OutputExact`. One unit allocated, written, another allocated
  and taken back is enough (`SpoiledRun`).
- `update_nodes_def` starts with the answer OBJECT_RANGE_OVERLAP, but overwrites it with that of each
  file operation. When nodes cannot be defined again because no one record holds them all, nothing is
  written, and `mc_def_nodes` nevertheless answers OK, unless a file was open and no record of the
  class is as long as the range: `UpdateNodes` has the exact condition, `CrossingRun` a run.
- `commit_dir` writes a parameter without strings like any other entry; in a directory with names,
  loading it back fails: `DirectoryRoundTrip` says exactly when, `UnnamedRun` shows such a directory.
  No caller in the library makes one: the parameters pass one name (src/param.c:244, 560 and 1024,
  src/taurus_mesh_u.c:113-165, src/taurus_db.c:411), and only STATE_REC_DATA and STATE_VAR_DICT
  entries have none (src/srec.c:1361, src/svar.c:969).
- An unmatched `)` after an alternative stores the jump reserved for the end of the alternatives
  early; it is stored again later, which `SealedLands` accounts for.

- `mc_def_class` begins a file before the names are looked at. When a class is defined again without
  its long name after the last file was closed, that file stays empty, and `load_directories` fails on
  it: the family cannot be opened any more (`EmptyFileRun`). `OpenFamily` says that this is the only
  reason.

## Model

| member | source | states |
|---|---|---|
| RegexBytes.StoreThenExtract | WIN32-src/win32-regex.c:494-517 | storing a number in two bytes and extracting it gives it back if and only if it fits 16 signed bits |
| RegexBytes.ExtractThenStore | WIN32-src/win32-regex.c:494-517 | extracting and storing leaves any two bytes as they were |
| RegexBytes.SetListBit | WIN32-src/win32-regex.c:1662-1664 | setting a bit of a bitmap adds that character to the set and no other |
| RegexBytes.Trim | WIN32-src/win32-regex.c:2274-2281 | dropping zero bytes at the end of a bitmap leaves the set the same |
| RegexSyntax.OpsCollapse | WIN32-src/win32-regex.c:1944-1998 | a run of repetition characters means the one operator it is collapsed to |
| RegexGen.BracketMap | WIN32-src/win32-regex.c:2067-2281 | the bitmap of a bracket expression has exactly its characters |
| RegexMeaning.CodeMeansLanguage | WIN32-src/win32-regex.c:1934-2060 | read nondeterministically, the code of a tree accepts a stretch of text if and only if it is in the tree's language |
| RegexMeaning.SoundRegex | WIN32-src/win32-regex.c:2446-2485 | whatever the code of a tree accepts, wherever it stands, begins with a word of the tree |
| RegexMeaning.CompleteRegex | WIN32-src/win32-regex.c:2446-2485 | every word of the tree is accepted by its code, wherever it stands |
| RegexCompileProof.CompilesToCode | WIN32-src/win32-regex.c:1783-2872 | the text of every well-formed tree, with repetitions and intervals one after another, compiles, and to the code of that tree; only what stands just before an interval is repeated |
| RegexCompileProof.ReadRegex | WIN32-src/win32-regex.c:2446-2485 | alternatives read one after another leave their code, each reserved jump leading past the rest |
| RegexCompileProof.ReadBracketText | WIN32-src/win32-regex.c:2067-2281 | the text of a bracket expression, with a hyphen first or last or a `[` inside too, is read to its end and leaves its bitmap |
| RegexCompileProof.ReadPosts | WIN32-src/win32-regex.c:1934-2058 | repetitions and intervals read one after another are each put around all that is before them |
| RegexCompileProof.FreshLiteral | WIN32-src/win32-regex.c:2776-2799 | a character before a repetition character, a brace or a caret begins an exactn of its own |
| RegexCompileProof.RepeatCode | WIN32-src/win32-regex.c:2000-2058 | the jumps inserted around an operand make the loop meant for the operator |
| RegexBounds.BoundsRead | WIN32-src/win32-regex.c:2497-2545 | the bounds read from `n}`, `n,}` or `n,m}` are the numbers written there, and the reading ends after the brace; bounds turned round or above RE_DUP_MAX make it no interval |
| RegexOddPatterns.BoundsWritten | WIN32-src/win32-regex.c:2497-2545 | where bounds are read, they are written: digits, perhaps a comma and more digits, and the closing brace, and they are in order |
| RegexOddPatterns.LastRepeated | WIN32-src/win32-regex.c:2557-2640 | `ab{2}` repeats `b` alone: its code, byte by byte |
| RegexOddPatterns.OpenBracket | WIN32-src/win32-regex.c:2069-2110 | after any tree, a bracket expression that is not closed is answered with REG_EBRACK |
| RegexOddPatterns.BadRange | WIN32-src/win32-regex.c:3003-3024 | after any tree and any items, a range whose first character is above its second, or one cut off at the end, is answered with REG_ERANGE |
| RegexOddPatterns.OpenGroup | WIN32-src/win32-regex.c:2806-2810 | trees with an opening parenthesis between one and the next, however many, are answered with REG_EPAREN |
| RegexOddPatterns.NothingEscaped | WIN32-src/win32-regex.c:2317-2319 | a backslash at the end of the pattern is answered with REG_EESCAPE |
| RegexOddPatterns.EscapedCharacter | WIN32-src/win32-regex.c:2317-2334 | a backslash before any other character makes it an exactn of its own, but for the letters and signs of the GNU operators and the digits of back-references |
| RegexOddPatterns.NothingToRepeat | WIN32-src/win32-regex.c:1934-1998 | repetition characters with nothing before them are passed over |
| RegexOddPatterns.BraceStands | WIN32-src/win32-regex.c:2641-2656 | bounds turned round or too large leave the brace and what follows it characters, in an exactn that begins with the one before |
| RegexOddPatterns.StrayParenthesis | WIN32-src/win32-regex.c:2386-2405 | an unmatched `)` is a character like any other |
| RegexOddPatterns.StrayAfterAlternatives | WIN32-src/win32-regex.c:2386-2405 | after alternatives it stands behind a pushed failure point, and the stored jump leads past it |
| RegexCompiler.Compiler.constructor | WIN32-src/win32-regex.c:1783-1920 | an empty buffer holds no code and nothing is open |
| RegexCompiler.Compiler.GetBufferSpace | WIN32-src/win32-regex.c:1513-1613 | the buffer grows, with the same contents, exactly when the code then fits the largest size |
| RegexCompiler.Compiler.StoreOp | WIN32-src/win32-regex.c:2878-2883 | three bytes become the instruction, the others stay |
| RegexCompiler.Compiler.InsertOp | WIN32-src/win32-regex.c:2900-2910 | the loop that moves bytes up by three refines insertion into the code |
| RegexCompiler.Compiler.InsertTwo | WIN32-src/win32-regex.c:2915-2925 | the same by five bytes |
| RegexCompiler.Compiler.AddLiteral | WIN32-src/win32-regex.c:2769-2804 | the buffer refines extending the open exactn or starting a new one; which of them is RegexCompileProof.FreshLiteral and CompilesToCode |
| RegexCompiler.Compiler.AddRepeat | WIN32-src/win32-regex.c:1934-2058 | the buffer refines the jumps around an operand |
| RegexCompiler.Compiler.AddInterval | WIN32-src/win32-regex.c:2557-2640 | the buffer refines the counted jumps and numbers around an operand |
| RegexCompiler.Compiler.AddBracket | WIN32-src/win32-regex.c:2067-2281 | the buffer refines reading a bracket expression, with its errors: RegexCompileProof.ReadBracketText, RegexOddPatterns.OpenBracket and BadRange say which texts give which |
| RegexCompiler.Compiler.SetBits | WIN32-src/win32-regex.c:2985-3036 | the loop over a range sets exactly the bits of the range |
| RegexCompiler.Compiler.OpenGroup | WIN32-src/win32-regex.c:2332-2375 | the buffer refines opening a group |
| RegexCompiler.Compiler.CloseGroup | WIN32-src/win32-regex.c:2386-2440 | the buffer refines closing one, or an unmatched parenthesis |
| RegexCompiler.Compiler.AddAlternative | WIN32-src/win32-regex.c:2446-2485 | the buffer refines the failure jump, the stored jump and the three reserved bytes of an alternative |
| RegexCompiler.Compiler.RegexCompile | WIN32-src/win32-regex.c:1783-2872 | the bytes left in the buffer are those of the state machine; the only other outcome is that they would not fit |
| RegexLanding.ClosedMoved | WIN32-src/win32-regex.c:2900-2925 | a block whose addresses stay inside it can be shifted as a whole |
| RegexLanding.CutKept | WIN32-src/win32-regex.c:2900-2925 | code may be inserted or replaced after a place no address crosses |
| RegexLandingProof.RepeatLands | WIN32-src/win32-regex.c:2000-2058 | inserting the jumps of a repetition keeps all addresses right |
| RegexCompileProof.IntervalIs | WIN32-src/win32-regex.c:2557-2640 | the insertions for an interval leave the layout its comment describes |
| RegexLandingProof.IntervalLands | WIN32-src/win32-regex.c:2557-2640 | after an interval each set_number_at sets the count of its counted jump, which holds that number already |
| RegexLandingProof.AlternativeLands | WIN32-src/win32-regex.c:2446-2485 | an alternative keeps all addresses right, its reserved slot included |
| RegexLandingProof.CloseLands | WIN32-src/win32-regex.c:2386-2440 | so does closing a group, or an unmatched parenthesis |
| RegexLandingProof.SealedLands | WIN32-src/win32-regex.c:2386-2397 | so does the jump stored early at an unmatched parenthesis |
| RegexLandingProof.StepLands | WIN32-src/win32-regex.c:1922-2804 | every turn of the compiler keeps all addresses right, whatever the pattern |
| RegexLandingProof.AddressesLand | WIN32-src/win32-regex.c:1783-2872 | in the code of any pattern every jump lands on an instruction or the end, every set_number_at on a count |
| RegexBlocks.CodeIsWellFormed | WIN32-src/win32-regex.c:1944-2058 | the code of a tree falls into instructions, and its loops are entered at their bodies only |
| RegexQuiet.CodeIsQuiet | WIN32-src/win32-regex.c:3229-3258 | the code of a tree has no empty jump to a failure jump, which the fastmap would take for a loop |
| RegexQuiet.EmptyEnd | WIN32-src/win32-regex.c:2446-2485 | it ends in an empty jump if and only if there are several alternatives and the last is without code: empty, or only groups past the last register with nothing in them |
| RegexQuiet.EmptyEndExamples | WIN32-src/win32-regex.c:2446-2485 | two empty alternatives are such a pattern, two letters are not |
| RegexVmProof.NoForcedExit | WIN32-src/win32-regex.c:4316-4402 | the test at a stop_memory that would leave a loop around a group is never met in these programs |
| RegexVmRun.ExecKeeps | WIN32-src/win32-regex.c:4110-4826 | every instruction keeps the machine's invariant and lowers a measure: the matcher ends |
| RegexVmRun.BacktrackKeeps | WIN32-src/win32-regex.c:5042-5091 | so does going back to a failure point |
| RegexMatch.DecisionExact | WIN32-src/win32-regex.c:4601-4758 | a maybe_pop_jump discards failure points wrongly exactly in the two cases of the defects |
| RegexMatch.PopLosesNothing | WIN32-src/win32-regex.c:4760-4785 | otherwise discarding them loses no longest match |
| RegexMatch.RunIgnoresRewriting | WIN32-src/win32-regex.c:4601-4758 | a run on code rewritten by earlier runs gives the same result as on the code first compiled |
| RegexMatch.RunSound | WIN32-src/win32-regex.c:3957-4022 | where the matcher says a match ends, the code accepts |
| RegexMatch.RunLongest | WIN32-src/win32-regex.c:3957-4022 | no accepted end lies beyond it: exhaustive backtracking with best-so-far loses nothing |
| RegexMatch.MatchesLongest | WIN32-src/win32-regex.c:3705-5096 | for every pattern of the fragment free of the defects and every text, the match found is the longest prefix in the language, or there is none |
| RegexSound.ForcedSound | WIN32-src/win32-regex.c:4316-4402 | leaving a loop at a stop_memory, whenever the code allows it, leads only where the code itself leads |
| RegexSound.TreeSound | WIN32-src/win32-regex.c:3705-5096 | for every tree, groups repeated or not, and whatever the registers say at each stop_memory: the text from where a match begins to where it is reported to end is a word of the tree |
| RegexSound.RunEnds | WIN32-src/win32-regex.c:3957-4022 | the runs of the fragment are such runs |
| RegexLost.TrapExists | WIN32-src/win32-regex.c:4601-4785 | a loop with a wrong decision that only its head leads past has a shortest word of the code in which the loop and what follows it could both take the character where the loop is left |
| RegexLost.TrapFindsNothing | WIN32-src/win32-regex.c:3705-5096 | on such a word the matcher finds no match at all |
| RegexSteady.RegexWord | WIN32-src/win32-regex.c:1783-2872 | every well-formed tree has a word |
| RegexSteady.DefectShows | WIN32-src/win32-regex.c:4601-4785 | so a loop with a defect that nothing leads round makes the matcher miss some text of the language |
| RegexSteady.SteadyExact | WIN32-src/win32-regex.c:4601-4785 | for every pattern of the fragment without `*` and `+` in alternatives and optional groups: right on all texts if and only if no loop has one of the two defects |
| RegexDefect.StarThenHarmless | WIN32-src/win32-regex.c:4671-4700 | for the patterns x*y, the two defects told from the two character classes |
| RegexDefect.StarThenExact | WIN32-src/win32-regex.c:4671-4700 | for the patterns x*y the matcher is right on all texts if and only if neither defect applies |
| RegexDefect.StarThenMisses | WIN32-src/win32-regex.c:4671-4700 | where one applies, a text of one character of both classes is in the language and not found |
| RegexDefect.CountByteMisses | WIN32-src/win32-regex.c:4697-4700 | `a*[a]` does not find the text `a` |
| RegexDefect.FullMapMisses | WIN32-src/win32-regex.c:4665-4680 | a repeated set of `a` and the last character, followed by `a`, does not find the text `a` |
| RegexDetour.LoopTakesAll | WIN32-src/win32-regex.c:4760-4785 | a loop whose failure points are discarded takes every character it can, and is left once, with the failure points it was entered with |
| RegexDetour.DetourRight | WIN32-src/win32-regex.c:4601-4785 | `(x*y)?x*` with a defect and y within x is right on all texts |
| RegexDetour.HarmlessNotNeeded | WIN32-src/win32-regex.c:4601-4785 | so for `(a*[a])?a*`, without an alternative, freedom from the defects is not necessary |
| RegexTame.TameIsHarmless | WIN32-src/win32-regex.c:4601-4758 | trees without repeated literals or without sets, and without characters from 248 on, are free of the defects |
| RegexFastmap.StepKeeps | WIN32-src/win32-regex.c:3114-3331 | one turn of the walk over the code keeps its invariant and lowers a measure: the walk ends |
| RegexFastmap.NextKeeps | WIN32-src/win32-regex.c:3093-3109 | so does taking the next pending place |
| RegexFastmap.WalkDone | WIN32-src/win32-regex.c:3052-3340 | can_be_null is set if and only if the end of the code can be reached without reading; where it is not, a character is in the map if and only if some instruction reached without reading takes it, the null character also where that is an anychar |
| RegexFastmap.NullableMeans | WIN32-src/win32-regex.c:3093-3109 | can_be_null if and only if the code accepts nothing |
| RegexFastmap.FirstMeans | WIN32-src/win32-regex.c:3130-3165 | every match that is not empty begins with a character of the map |
| RegexFastmap.FastmapIgnoresRewriting | WIN32-src/win32-regex.c:3229-3258 | the map of rewritten code is that of the code first compiled |
| RegexPattern.PatternBuffer.constructor | WIN32-src/win32-regex.c:5507-5567 | a compiled pattern begins without a fastmap |
| RegexPattern.PatternBuffer.CompileFastmap | WIN32-src/win32-regex.c:3052-3340 | the loops over the code fill exactly the map of the program |
| RegexPattern.PatternBuffer.Execute | WIN32-src/win32-regex.c:4110-4826 | one instruction on the buffer refines one of the machine, rewriting included |
| RegexPattern.PatternBuffer.MatchAt | WIN32-src/win32-regex.c:3705-5096 | the matcher on the buffer returns what the machine does and leaves the program the same |
| RegexPattern.PatternBuffer.Search | WIN32-src/win32-regex.c:3418-3551 | with or without a fastmap, forwards or backwards, the first position where trying every one in order finds a match |
| RegexPattern.HitBelow | WIN32-src/win32-regex.c:3418-3551 | a match ends at or after where it begins and inside the text |
| RegexTheorems.FastmapOfTree | WIN32-src/win32-regex.c:3052-3340 | for every tree, groups repeated or not: can_be_null means the empty word, and words begin with characters of the map |
| RegexTheorems.ClampIs | WIN32-src/win32-regex.c:3433-3444 | a search tries exactly the positions of its range that are in the text |
| RegexTheorems.FirstHitIs | WIN32-src/win32-regex.c:3517-3551 | the first hit is a match with none closer to the start |
| RegexTheorems.RegComp | WIN32-src/win32-regex.c:5507-5567 | regcomp leaves a valid pattern with the code of the tree |
| RegexTheorems.RegExec | WIN32-src/win32-regex.c:5585-5643 | regexec finds the leftmost of the longest matches, or there is none anywhere |
| MeshRanges.InsertIs | src/mesh_u.c:1892-2014 | insertion reports an overlap if and only if the sets meet; otherwise the list is the union, still sorted, apart and not adjacent |
| MeshRanges.CanonicalUnique | src/mesh_u.c:1892-2014 | a set of ids has one such list only |
| MeshRanges.InsertTotal | src/mesh_u.c:1892-2014 | the number of objects grows by the size of the new range |
| MeshRanges.BlockList.InsertRange | src/mesh_u.c:1892-2014 | relinking the doubly linked list refines insertion, with exact counts |
| MeshRanges.BlockList.LinkNew | src/mesh_u.c:1948-2007 | a new node stands between its neighbours, linked both ways |
| MeshRanges.BlockList.Collapse | src/mesh_u.c:1918-1932 | two nodes become one and the links around them are right |
| MeshRanges.BlockList.CheckObjectIds | src/mesh_u.c:2021-2053 | accepted if and only if every range asked for lies in one range of the list |
| MeshRanges.InOneRangeIs | src/mesh_u.c:2021-2053 | which is to say that every id asked for is defined |
| MeshRecords.NewRecord | src/mesh_u.c:1008-1037 | the record written for a range holds each object at its slot, and its entry leads to it |
| MeshFiles.RecordWritten | src/mesh_u.c:952-1050 | a new record keeps every entry, object and class right |
| MeshFiles.UniqueAdded | src/mesh_u.c:1822-1883 | every object is in one record only |
| MeshLoad.TrussRow | src/mesh_u.c:3055-3085 | the row of a truss, cell by cell |
| MeshLoad.LoadBlock | src/mesh_u.c:3050-3084 | the elements of a record are scattered to the rows of their ids, each less by one, and no other row changes |
| MeshLoad.LoadCoords | src/mesh_u.c:3151-3189 | the nodes of a record are copied to the places of their ids, and no other place changes |
| MeshUpdate.ObjectOverwritten | src/mesh_u.c:877-912 | overwriting coordinates in place changes the nodes of the range and nothing else |
| MeshUpdate.FamilyUpdated | src/mesh_u.c:817-944 | and keeps the whole family right |
| MeshFamily.Family.constructor | src/mesh_u.c:252-305 | an empty family has no meshes, classes or objects |
| MeshFamily.Family.MakeMesh | src/mesh_u.c:252-360 | the status, and one more mesh with the next id; the first decides the dimensions; its name is written as a parameter, and what was written stays |
| MeshFiles.OtherAdded | src/direc.c:89-165 | an entry of another kind, with its names and what is written for it, keeps every record and object right |
| MeshFamily.Family.DefClass | src/mesh_u.c:485-548 | a new class of an existing mesh, without objects; an existing class stays as it is; in both cases an entry with its two names; the family can be opened again afterwards unless a new class was left without its entry, and only then |
| MeshFamily.Family.PrepForNewData | src/mili.c:2918-2982 | the last file is open and has no directory yet; what was written stays |
| MeshFamily.Family.CloseFile | src/mili.c:3476-3500 | closing keeps every record and entry |
| MeshFamily.Family.OpenFile | src/mili.c:3310-3369 | opening another file keeps every record and entry |
| MeshFamily.Family.Define | src/mesh_u.c:1822-1883 | a range is defined if and only if none of its ids is; the objects are then exactly the old and the new |
| MeshFamily.Family.DefConnSeq | src/mesh_u.c:952-1050 | the status, and the objects, of a definition of elements |
| MeshFamily.Family.LoadConnDef | src/mesh_u.c:2984-3092 | one entry loads its elements from the true start of its record |
| MeshFamily.Family.LoadConns | src/mesh_u.c:2223-2296 | after any run, every element of the class is at the row of its id as last written, and every other row is as it was |
| MeshFamily.Family.UpdateNodes | src/mesh_u.c:817-944 | nodes are overwritten if and only if one earlier record holds the whole range, and then exactly those; an overlap is answered if and only if they are not, a file was open and no record of the class is as long as the range |
| MeshFamily.Family.DefNodes | src/mesh_u.c:645-738 | the status, whether anything is written, and the objects, of a definition of nodes, new or again |
| MeshFamily.Family.LoadNodes | src/mesh_u.c:2137-2215 | after any run, every node has the coordinates last written, and every other place is as it was; for a class of elements, the rows as LoadConns leaves them |
| MeshRuns.ElementRun | src/mesh_u.c:952-2296 | from an empty family: a mesh, a class, two ranges of elements out of order, and loading fills exactly the rows of both |
| MeshRuns.NodeRun | src/mesh_u.c:645-2215 | from an empty family: a range of nodes, a part of it again, and loading gives the last coordinates of each |
| MeshRuns.CrossingRun | src/mesh_u.c:693-944 | nodes of two records defined again in one call: nothing is written, and the answer is OK |
| MeshReplay.GoodRead | src/mesh_u.c:3950-4040 | the header of a record written by the family gives its range of ids, for nodes and for elements |
| MeshReplay.GeomAdded | src/mesh_u.c:1822-1883 | entering the ranges of a class again, in the order of the entries, leaves the list it had when each was defined |
| MeshReplay.UpdateReads | src/mesh_u.c:877-912 | overwriting nodes in place changes nothing that any entry reads |
| MeshReplay.EntriesMean | src/mesh_u.c:3848-4222 | what the kinds of entries and the names and types of parameters, as numbers and strings, do to the meshes |
| MeshReplay.BlocksAdded | src/mesh_u.c:4031-4040 | n blocks entered: the class has exactly its former ids and those of all the blocks, and nothing else changes; it stops with an overlap if and only if a block meets a former id or a block before it |
| MeshReplay.RecordAdded | src/mesh_u.c:4000-4040 | so it is with the record an element entry leads to, whose second word is the number of its blocks |
| MeshReplay.TwoBlocks | src/mesh_u.c:4031-4040 | blocks 1 to 2 and 5 to 6 give ids 1, 2, 5 and 6, and 1 to 2 and 2 to 3 an overlap |
| MeshReplay.BytesOfWords | src/direc.c:175-266 | bytes written as words of four come back |
| MeshReopen.InitMeshes | src/mesh_u.c:3848-4222 | the loops over files, entries, names and blocks refine reading the entries in order, with the first error; what an entry says is MeshReplay.EntriesMean and RecordAdded |
| MeshReopen.FileBack | src/direc.c:316-705 | a committed file gives back its words and its directory |
| MeshReopen.AllBack | src/direc.c:316-705 | the files of a closed family can be loaded if and only if none is empty |
| MeshReopen.OpenFamily | src/mesh_u.c:3848-4222 | after any run, a closed family can be opened if and only if no file is empty; files, directories, meshes, and classes with their ranges are then what they were |
| MeshReopen.ReadBack | src/mesh_u.c:2223-2296 | every element loaded from the opened family is as it was last written before closing, and every other row stays |
| MeshReopen.ReadNodesBack | src/mesh_u.c:2137-2215 | so is every node |
| MeshReopen.EmptyFileRun | src/mesh_u.c:485-548 | a run from an empty family that leaves an empty file |
| MeshLabels.BlocksToList | src/mesh_u.c:5074-5109 | expanding pairs of numbers gives their ids one after another |
| MeshLabels.CountBlocks | src/mesh_u.c:2678-2689 | the number of blocks is one more than the number of labels after the first that do not follow the one before |
| MeshLabels.MakeBlocks | src/mesh_u.c:2834-2888 | expanding the blocks made gives back the labels, repeated ones too; every block goes upward, none ends one below where the next begins, and the array has exactly two cells a block |
| MeshLabels.BlocksUnique | src/mesh_u.c:2834-2888 | there is only one such list of blocks for a list of labels |
| IoStore.OutputExact | src/io_mem.c:724-752 | an output writes exactly the units not taken back if and only if the one where it resumes was not taken back |
| IoStore.BufferWritten | src/io_mem.c:693-756 | then everything written so far is, in order, what was kept |
| IoStore.Store.constructor | src/io_mem.c:142-194 | an empty store |
| IoStore.Store.Alloc | src/io_mem.c:415-510 | the units given out follow all those before, and are zero; nothing written changes |
| IoStore.Store.StrDup | src/io_mem.c:616-646 | a string is copied into fresh units |
| IoStore.Store.Unalloc | src/io_mem.c:519-609 | units are taken back if and only if they are in use and not taken back already |
| IoStore.Store.Output | src/io_mem.c:653-761 | over any run, what has been written is in order and once each what was allocated and not taken back first, if and only if no output has resumed at a unit taken back; a unit where one resumes is written |
| IoStore.Store.ExactIs | src/io_mem.c:653-761 | the same of every valid store |
| IoStore.TakeBackFirst | src/io_mem.c:653-761 | when nothing is waiting, units are allocated and the first of them is taken back: it is written, and what is written is never again what was kept |
| IoStore.SpoiledRun | src/io_mem.c:653-761 | the same from a new store, after a unit that is written as it should be |
| IoStore.Store.GetFresh | src/io_mem.c:769-796 | the count of what an output without units taken back writes next |
| Directory.LowFirst | src/direc.c:206-253 | the low byte of a number is written first |
| Directory.NumberBytes | src/direc.c:206-253 | a number comes back from its bytes if and only if it fits in them |
| Directory.FileDir.AddEntry | src/direc.c:89-165 | a valid entry and its names are appended, an invalid one changes nothing |
| Directory.FileDir.CommitDir | src/direc.c:175-266 | the bytes written are the names padded to four, the entries and the header |
| DirectoryLoad.NamesRoundTrip | src/io_mem.c:957-1038 | the names come back one by one from the bytes they were written as |
| DirectoryLoad.EntriesRoundTrip | src/direc.c:486-545 | so do the entries |
| DirectoryLoad.GroupsRoundTrip | src/direc.c:612-651 | and the names are grouped by entry as before |
| DirectoryLoad.DirectoryRoundTrip | src/direc.c:316-705 | a directory loads back the same, from the end of any file, if and only if it has no names at all or all its parameters have one |
| DirectoryLoad.DirectoryLayout | src/direc.c:175-266 | where everything stands in a directory: the names and their zeros, the six numbers of each entry, and those of the header |
| DirectoryLoad.LoadedParams | src/direc.c:612-689 | the parameters of a file that loads are its entries of kind 5, 6 or 9, each under the last of its names |
| DirectoryLoad.UnnamedRun | src/direc.c:653-665 | one entry with a name and a parameter without are accepted and committed, and loading that file fails with NOT_OK |
| DirectoryLoad.LoadFile | src/direc.c:404-651 | the reading loops refine loading from the bytes, with their errors; which entries are parameters is DirectoryLoad.LoadedParams |
| DirectoryLoad.LoadDirectories | src/direc.c:316-705 | so does the loop over the files, which keeps the latest commit count |
| DirectoryLoad.FamilyRoundTrip | src/direc.c:316-705 | every directory of a family comes back as it was committed |
| HashTable.Table.constructor | src/gahl.c:106-123 | an empty table |
| HashTable.AddShiftHash | src/gahl.c:51-66 | the loop computes the hash, which is a bucket of the table |
| HashTable.HashIs | src/gahl.c:51-66 | the hash is the sum of the characters, each with a weight that doubles from one to the next and begins again after eight, modulo the size |
| HashTable.InsertElem | src/list.h:85-93 | the element is first in the list, linked both ways |
| HashTable.InsertBefore | src/list.h:100-113 | the element stands before another, linked both ways |
| HashTable.DeleteElem | src/list.h:191-200 | the list without the element |
| HashTable.ModesMean | src/gahl.c:164-262 | when each mode enters, replaces or refuses, and what it leaves of the stack |
| HashTable.Table.Search | src/gahl.c:130-277 | the four modes on the stack of a key; other keys keep theirs |
| HashTable.Table.AddEntryData | src/gahl.c:542-557 | the data are pushed on the stack of the key, or replace its top, or nothing, by mode |
| HashTable.Table.DelEntry | src/gahl.c:469-487 | the stack of the key is the old one without that datum, wherever it stood, and the other stacks stay; without the top one, the one before shows again |
| HashTable.Table.Find | src/gahl.c:130-277 | the datum entered last |
| HashTable.Table.GetData | src/gahl.c:589-618 | every datum exactly once, as many as there are entries |
| HashTable.Table.AllDataIs | src/gahl.c:589-618 | they are the data of the stacks of all keys, each as often |
| HashTable.Table.EnterAll | src/direc.c:653-689 | parameters entered one by one stand before the earlier ones of their names |
| HashTable.LastEntered | src/direc.c:653-689 | of the parameters entered, the last of a name is on top of its stack |
| ParamTable.LastIs | src/direc.c:653-689 | the last parameter of a name among all files is the one with the greatest file, and entry in it |
| ParamTable.LoadParams | src/direc.c:316-705 | loading the directories leaves a table with a stack of all parameters of each name, in their order |
| ParamTable.FindParam | src/direc.c:316-705 | so a name is found if and only if some file has an entry of kind 5, 6 or 9 that goes by it, and what is found is the last of them |
| ParamTable.ParamRun | src/param.c:977 | a parameter of each of the three kinds, added to a directory and committed, is found in the file |
| HashTable.EnteredStack | src/gahl.c:130-277 | inserting before the first entry of a key pushes on its stack |
| HashTable.TakenOut | src/gahl.c:469-487 | taking an entry out of a chain takes its datum from its place in the stack of its key, and leaves the other stacks |
| ControlString.Family.ReadHeader | src/mili.c:1461-1570 | what reading the header sets, and what it answers |
| ControlString.Family.ParseControlString | src/mili.c:626-1037 | the result depends on the first access pair, the first byte-order pair and the header found only |
| ControlString.Family.SettleRest | src/mili.c:801-1033 | the cycle over the functions ends with all three settled, counted exactly |
| ControlString.AccessMeans | src/mili.c:654-850 | when the family found lets the access be settled, when a family is created, and which mode it then has |
| ControlString.NumbersMean | src/mili_enum.h:84-85 | byte order 1 in a header is the big one and 2 the little one; a family is created with precision 2 and the byte order asked for |
| ControlString.PairsExchanged | src/mili.c:654-793 | pairs with different letters can be exchanged |
| ControlString.PairIgnored | src/mili.c:654-793 | a precision pair, and a repeated pair, change nothing |
| TabFormat.TabTreeText | src/eprtf.c:94-98 | the tree of the tab pattern has that pattern's text |
| TabFormat.TabLanguage | src/eprtf.c:94-98 | the pattern matches the tab formats and nothing else |
| TabFormat.TabTreeTame | src/eprtf.c:94-98 | the matcher is right on this pattern |
| TabFormat.PercentRun | src/eprtf.c:247-257 | in a row of percent signs the last begins a tab format if and only if their number is odd |
| TabFormat.ShowParse | src/eprtf.c:234-313 | a format string falls into segments and tab formats with nothing lost and none missed |
| TabFormat.ParseShow | src/eprtf.c:234-313 | and in one way only |
| Overlay.WriteAllIs | src/eprtf.c:112-152 | at every column stands the character of the last text written there, or a blank |
| Overlay.NumberOfDecimal | src/eprtf.c:293 | a column written in decimal digits is that number |
| Overlay.LeadingZeros | src/eprtf.c:293 | leading zeros change nothing |
| Overlay.TextAtColumn | src/eprtf.c:260-313 | text after a tab format with a number stands from that column on, counted from 1, over the text before it and blanks |
| Overlay.TextAtStar | src/eprtf.c:277-305 | with a star the column is the next argument, refused if it is not from 1 to 1024, and the text after it gets the arguments after that |
| Overlay.ColumnRefused | src/eprtf.c:300-303 | a number that is 0 or above 1024 is refused |
| Overlay.Buffer.constructor | src/eprtf.c:447-475 | a buffer of nulls |
| Overlay.Buffer.TranslateSegment | src/eprtf.c:112-152 | a segment is blank-padded to its column and written over what is there, the longer tail kept |
| Overlay.Buffer.FindTab | src/eprtf.c:241-246 | the first tab format from a place on, found with the compiled pattern |
| Overlay.Buffer.Escaped | src/eprtf.c:247-257 | an odd number of percent signs before it makes it none |
| Overlay.Buffer.TranslateString | src/eprtf.c:234-313 | the buffer is the fold of all segments at their columns, and its length is returned; -1 for a column out of range; what number a column is is Overlay.NumberOfDecimal |
| Overlay.Esprintf | src/eprtf.c:447-497 | the output is that text and a null, and the bytes after it stay |

## Left out

Regular expressions:

- Anchors, character classes `[:x:]`, GNU operators and back-references: the compiler model answers `Outside`.
- Matching with intervals: their counts are changed in the buffer and not restored on backtracking; only their code is modelled.
- The overflow of a decimal bound of an interval past the range of an int.
- Two-string texts, translate tables, registers and `newline_anchor`; `re_match_2_internal` is modelled over one string.
- Memory exhaustion, and a failure stack that runs out; code longer than 32767 bytes, whose addresses no longer fit.
- RegexMatch.MatchesLongest: is stated for patterns whose `*` and `+` apply to one character, the fragment where discarding failure points is meant to be safe, and under `Harmless`; that condition is exact for all of them without `*` and `+` in alternatives and optional groups (RegexSteady.SteadyExact), and not necessary for the others (RegexDetour.HarmlessNotNeeded), where a way round the loop can supply the lost match.
- RegexOddPatterns.StrayParenthesis: for plain characters before and after it, as RegexOddPatterns.StrayAfterAlternatives and RegexOddPatterns.BraceStands are; with other pieces there the code is not that of a tree.
- RegexCompiler.Compiler.AddBracket: answers `Outside` for character classes.
- RegexCompiler.Compiler.RegexCompile: answers `Outside` for anchors, character classes, GNU operators and back-references.
- RegexVmRun.ExecKeeps: leaves out the registers, and the instructions the fragment's code does not have.
- RegexPattern.PatternBuffer.MatchAt: leaves out the registers and the second string.
- RegexTheorems.RegComp: makes a pattern buffer of trees whose `*` and `+` apply to one character, as only for these the matcher's invariant is proved; that every tree compiles is RegexCompileProof.CompilesToCode and RegexCompiler.Compiler.RegexCompile.
- RegexTheorems.RegExec: is stated under the conditions of RegexMatch.MatchesLongest, and reports no registers.
- RegexFastmap.WalkDone: is about the instructions the code can begin with; that every match begins with a character of the map is RegexFastmap.FirstMeans.
- RegexPattern.PatternBuffer.Search: ignores the overflow of `startpos + range`.
- RegexPattern.PatternBuffer.CompileFastmap: a jump of length 0 at the end of the code, RegexQuiet.EmptyEnd, makes the original read the byte after the code; the model asks that it is no on_failure_jump.
- RegexSound.TreeSound: says nothing of patterns that match and are not found, which repeated groups can have through the discarding of failure points.

Mesh geometry:

- `mc_def_conn_arb`, surfaces, labels in files, TI side files, and the classes' other kinds of objects.
- MeshFamily.Family.MakeMesh: the parameters it writes are not looked up in the parameter table first.
- MeshFamily.Family.DefClass: a class with an empty short name is not kept; the original keeps it in its table without an entry, and no range of it can be written. Superclasses are those of the library.
- State variables and state records, which a commit also writes; the contents of records of other kinds.
- Files are sequences of 4-byte words; disk errors and locks.
- MeshReopen.OpenFamily: words, numbers and names fit in the file, and every parameter has a name; families with a class that has no entry are left to MeshFamily.Family.DefClass.
- MeshReopen.InitMeshes: reads the mesh type and the dimensions with the other entries, where the original looks them up in the parameter table first; entries for identifiers and surfaces, which are not written here, are passed over.
- A range with start above stop, which `insert_range` does not expect; MeshReplay.BlocksAdded is for blocks that go upward, as all that are written do.
- MeshFamily.Family.Define: uses the insertion on values that BlockList.InsertRange refines.
- qsort: the two loops over labels are proved for any order.

I/O store and directory:

- `ios_input`, and strings or integers traversed across several buffers: `ios_string_traverse` never steps into the last buffer.
- IoStore.Store.Unalloc: a positive number of units, as all callers pass.
- Directory versions 1 and 2, which are never written, and a file with state maps in it.
- DirectoryLoad.DirectoryRoundTrip: numbers have the low byte first, and names have no zero byte.
- Allocation failure.

Hash table:

- The glob match of wildcards; freeing the data of an entry.
- HashTable.AddShiftHash: keys are not empty and have seven-bit characters; the original reads past an empty key's end and shifts negative characters, whose sum can be a negative bucket.
- ParamTable.LoadParams: enters the parameters when all files are loaded; the original enters them file by file, so that those of the files before one that cannot be loaded are in its table.
- ParamTable.FindParam: the names of all parameters are such keys.

Control string and formatting:

- ControlString.Family.ParseControlString: every letter is followed by a value; a repeated letter at the very end makes the original read past the terminator.
- `vsprintf` is a function from a segment and the arguments to a text and the number of arguments it takes.
- Overlay.Buffer.TranslateString: texts have no nulls and fit in the buffer before its last byte, segments and numbers fit the buffers they are copied to, and the byte before the format string is no percent sign, which the original would count.
- The branches under NOOPTERON, and output to a stream.
