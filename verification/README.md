# Models and proofs for the symbolicator core

Crash addresses become source lines through two pieces of code, and this project models both:

* **The demangler** (`libiberty/cp-demangle.c`). The *parser* turns a mangled type into components held in a
  fixed array, patching links in place and keeping a table of substitutions. The *printer* writes components as
  C declarators, inside out, through a stack of modifiers that each call may mark as printed, and through a
  256-byte buffer that is flushed to a growing string.
* **The DWARF reader** (`dwarf/*` over `io/*`). Streams (memory, window, read cache), LEB128 numbers, attribute
  values, entries and compile units with their lazy second pass, range lists, address ranges, and the
  line-number program.

Classes, arrays and loops stand for the imperative code. Each method is proved equal to a function on values,
and the theorems are about these functions. Streams, tables and headers are parameters; nothing is assumed of
the bytes unless a contract says so.

## How the modules fit together

| part | modules |
|---|---|
| printer | `Components`, `Declarators` (what is written), `PrintBuffer`, `Printer` (the code), `DeclaratorLaws`, `ModifiersOnce` |
| parser | `Mangling` (what is parsed), `ManglingParser` (the code), `ManglingGraph`, `ManglingSafety`, `SubstitutionDictionary` |
| both, against a grammar | `MangledTypes` (types, functions, their encodings and trees), `MangledTypesSteps`, `MangledTypesRead` (the parser reads them back), `Spelling` (how C++ declares them), `SpellingLaws` (the printer writes that), `TypeNames` (from encoding to declaration) |
| streams | `Bytes`, `Input`, `Leb128`, `Streams`, `StreamRuns` |
| entries | `FormValue`, `FormEncoding`, `DebugInfo`, `DieTree`, `DieQueries`, `CompileUnit`, `UnitAnswers`, `EntryExtents`, `AddressSearch` |
| tables | `Algorithms`, `RangeTable`, `ArangeTable`, `LineProgram`, `LineExpansion`, `LineTable`, `LineAddresses`, `LineRows`, `LineHeader`, `DebugLine` |

## Where the code does not do what it is for

Each of these is stated with the exact condition under which the code does meet its purpose.

* A string attribute of more than two characters is cut: the size passed for the buffer is that of an integer
  constant less one (`FormEncoding.StringExact`, `FormEncoding.LongString`).
* A cached write does not move the position, and a cached seek to the end goes there where the others ignore it
  (`StreamRuns.StepsAgree`); over whole runs a caller notices if and only if it reads or writes where the two stand
  apart (`StreamRuns.CacheExact`). A cached read that runs over the end reports bytes that are not there when it is a
  hit, and one at the very end also when the parent stands elsewhere (`Streams.StreamCache.Read`); a cached write at
  the very end lands where the parent stood (`Streams.StreamCache.Write`, `StreamRuns.EndWrite`).
* An address has no unit, although one range contains it, when another range that does not end before the address
  is sorted before that one: a range that ends exactly there (`ArangeTable.DisjointLookup`, `ArangeTable.EndHidesNext`)
  or an empty one (`ArangeTable.LookupExact`, `ArangeTable.EmptyHidesOther`).
* The rows of a line program are those that were written, statement marks included, if and only if the header's default
  for these marks is false or there are no sequences: the first sequence starts from false instead of the default, so that its
  marks come out inverted (`LineRows.ProgramExact`).
* In the 64-bit format an offset takes eight bytes, of which four are read (`FormEncoding.LongOffsetCut`).
* `DW_LNS_copy` does not widen the address bounds of a line table (`LineAddresses.MaxExact`, `LineAddresses.LoneCopy`).
* The separator before an empty argument pack stays or goes with the phase of the output buffer, as soon as the
  pack is followed by another (`DeclaratorLaws.BlankTailDropped`).
* The direct children of an entry are found only up to the first that has children, and the root has none
  (`DieQueries.AllRootsLead`, `DieQueries.RootHasNone`).
* An address search finds the root of a unit without the inlined subroutines of its subtree, which shows if and only
  if the root is a subprogram that holds the address and one of these does (`AddressSearch.FoundExact`,
  `AddressSearch.RootLosesInlined`).
* LEB128 values of 2^32 and more are read modulo 2^32 (`Leb128.UlebExact`, `Leb128.SlebExact`, `Leb128.FifthGroupCut`).
* Substitution numbers from 2^32 on that slip past the overflow test stand for a smaller entry, 2^32 and 2^33 for
  entry 0 (`SubstitutionDictionary.Faithful`, `SubstitutionDictionary.ComesAround`).
* A range list asked for twice at an offset behind the section is filed twice, so that the table is no longer strictly
  sorted (`RangeTable.AskedKeepsOrder`, `RangeTable.AskedTwice`).
* Of the version and the address size of a unit only the low four bits count, so that a unit of version 18 is taken for
  one of version 2 (`UnitAnswers.HeaderTaken`).
* A high pc that is an offset is lost when the sum reaches the value that stands for "none" (`CompileUnit.HighPcExact`,
  `CompileUnit.HighPcLost`).
* Reading all range lists of a section reports failure whatever it reads (`RangeTable.RangeTable.Parse`).

## Model

| member | source | states |
|---|---|---|
| Printer.Printer.PrintComp | libiberty/cp-demangle.c:4272-4442 | with the mutable modifier stack, a component is written exactly as the pure inside-out declarator function says; every waiting modifier is marked if and only if a function declarator took it; the stack is restored |
| Printer.Printer.PrintModifier | libiberty/cp-demangle.c:4626-4743 | a qualifier, pointer or reference pushes itself, prints what is below, and writes itself only if no function declarator has done so; repeated qualifiers are dropped and references collapse one level |
| Printer.Printer.PrintFunction | libiberty/cp-demangle.c:4758-4801 | a function type waits while its return type is printed and prints itself afterwards only if it is still waiting |
| Printer.Printer.PrintTyped | libiberty/cp-demangle.c:4330-4442 | the name and its qualifiers of `this` become a list of their own, are printed by the type or after it, and the old list comes back |
| Printer.Printer.PushName | libiberty/cp-demangle.c:4330-4410 | the list made for a typed name is the name followed, outwards, by its qualifiers of `this`, none printed |
| Printer.Printer.PrintModList | libiberty/cp-demangle.c:5375-5461 | writes the waiting modifiers, suffix ones only where asked, stopping at a function declarator, and marks exactly those |
| Printer.Printer.PrintMod | libiberty/cp-demangle.c:5466-5530 | the text of one modifier, with the space before `restrict` and friends and before `::*` unless a parenthesis is open |
| Printer.Printer.PrintFunctionType | libiberty/cp-demangle.c:5535-5612 | brackets are opened exactly when a modifier asks for them, the modifiers go inside, then the parameters, then the qualifiers of `this` |
| Printer.Printer.Brackets | libiberty/cp-demangle.c:5538-5578 | the scan of the stack finds out what `SpellingLaws.TypeSpelled` says in terms of the type: whether what is declared begins with an operator, and with which, before the next parameters |
| Printer.Printer.PrintTemplate | libiberty/cp-demangle.c:4444-4493 | a template is printed without the modifiers around it, and no two angle brackets touch |
| Printer.Printer.PrintArgList | libiberty/cp-demangle.c:4908-4929 | ", " before the rest of a list is taken back when nothing follows it in the same buffer |
| TypeNames.TypeName | libiberty/cp-demangle.c:5765-5848 | parser and printer joined: for every type without arrays, whose pointers to members name their class, the encoding is demangled, through both arrays, the stack and the buffer, to the spelling of the type: what is declared grows by an operator before it or a parameter list behind it at every step down, brackets and spaces included |
| TypeNames.FunctionName | libiberty/cp-demangle.c:1139-1283 | the same for whole functions, nested, templates or qualified: `_Z`, name and type give the declaration of the function with its name where C++ puts it, as in "int (*A::f(char))(long) const" |
| TypeNames.MemberFunctionSpelledOut | libiberty/cp-demangle.c:1227-1283 | written out: _ZNK1A1fEi is "A::f(int) const", for all names and parameters of one letter |
| TypeNames.FlatIsPrintable | libiberty/cp-demangle.c:4272-4442 | the tree of a type is one the printer model covers if and only if the type is such |
| TypeNames.FlatIsSettled | libiberty/cp-demangle.c:3969-3987 | no part of such a tree is blank, so that its text does not depend on the phase of the buffer |
| TypeNames.SpelledOut | libiberty/cp-demangle.c:5535-5612 | written out for all letters and names: PFicE is "int (*)(char)", with & and && likewise; M1AFivE is "int (A::*)()"; N1A1BE is "A::B" |
| Printer.PrintToString | libiberty/cp-demangle.c:4029-4090 | the collected string is what the declarator function writes from an empty output |
| PrintBuffer.PrintBuffer.Flush | libiberty/cp-demangle.c:3969-3976 | the buffer goes to the callback and starts again; the text shown does not change |
| PrintBuffer.PrintBuffer.AppendChar | libiberty/cp-demangle.c:3980-3987 | one more character is shown, whatever the phase of the 256-byte buffer |
| PrintBuffer.PrintBuffer.AppendString | libiberty/cp-demangle.c:3990-4002 | a string is shown as its characters, one by one |
| PrintBuffer.PrintBuffer.TakeBack | libiberty/cp-demangle.c:4908-4929 | the last two characters are no longer shown when nothing was flushed since and nothing was added |
| PrintBuffer.GrowableString.Resize | libiberty/cp-demangle.c:3730-3757 | doubling from two reaches the needed size and keeps the contents |
| PrintBuffer.GrowableString.AppendBuffer | libiberty/cp-demangle.c:3762-3777 | the doubling string is the concatenation of the chunks handed to it |
| DeclaratorLaws.DeclareGrows | libiberty/cp-demangle.c:4272-4300 | printing a component only extends the text |
| DeclaratorLaws.SeparateUnsplit | libiberty/cp-demangle.c:4908-4921 | ", " always lies unflushed in one epoch of the buffer |
| DeclaratorLaws.RetractExact | libiberty/cp-demangle.c:4922-4928 | a retraction restores exactly the text before the separator, and happens only if nothing was written after it |
| DeclaratorLaws.BlankTailDropped | libiberty/cp-demangle.c:4908-4929 | the separator disappears before an empty tail, at every buffer position, if and only if that tail contains no separator in turn |
| DeclaratorLaws.DeclareSame | libiberty/cp-demangle.c:3969-3987 | apart from that, what is written does not depend on where the buffer happens to be |
| DeclaratorLaws.DeclarePrints | libiberty/cp-demangle.c:4908-4929 | a settled component that is not blank, or whose modifiers were placed, writes at least one character, so its separator stays |
| DeclaratorLaws.LinearForm | libiberty/cp-demangle.c:4716-4801 | the nested printing of a type equals its base followed by one pass over its modifiers, each written once, innermost first, the rest taken by the first function declarator |
| ModifiersOnce.TypeOnce | libiberty/cp-demangle.c:4716-4801 | with a log of what is written: a type writes its base and every modifier on the way exactly once, and those around it exactly once or, if no function declarator took them, not at all |
| ModifiersOnce.FunctionOnce | libiberty/cp-demangle.c:5375-5461 | a function declarator writes itself and every modifier around it exactly once, the two passes and the function declarators inside taken together |
| DeclaratorLaws.WalkLast | libiberty/cp-demangle.c:4734-4743 | adding an outer modifier to the pass adds its text at the end, or nothing if a function declarator took it |
| SpellingLaws.TypeSpelled | libiberty/cp-demangle.c:4626-4801 | whatever modifiers are around a type: with what these write taken as what is declared, the type is written as it is spelled from the outside in, with the brackets, spaces, collapsed references and dropped qualifiers that the spelling has |
| SpellingLaws.TypeWritten | libiberty/cp-demangle.c:4272-4801 | a whole type is written as it is spelled, wherever the buffer is |
| SpellingLaws.NamedFunctionSpelled | libiberty/cp-demangle.c:4330-4442 | a typed name is written as the name declared as the function, its qualifiers of `this` behind the parameters; without a result only the call |
| SpellingLaws.NamedValueSpelled | libiberty/cp-demangle.c:4412-4442 | a typed name whose type calls nothing is written as the type, then the name behind a space, then its qualifiers |
| SpellingLaws.ModifierOverFunction | libiberty/cp-demangle.c:5535-5612 | each modifier that does not qualify `this`, over any function: result, space, the modifier in brackets, parameters |
| SpellingLaws.MemberOverFunction | libiberty/cp-demangle.c:5535-5612 | a pointer to member over any function: the class and ::* in brackets |
| SpellingLaws.ThisOverFunction | libiberty/cp-demangle.c:5535-5612 | qualifiers of `this` over any function: no brackets, and the words behind the parameters |
| Mangling.Type | libiberty/cp-demangle.c:2228-2558 | terminates on every input; consumes n characters with at most 2n components, 2n-1 on success, and at most n substitutions; the cursor stays in the string and the table only grows |
| Mangling.PlainType | libiberty/cp-demangle.c:2286-2545 | the same for the candidates of substitution, one substitution to spare |
| Mangling.QualifiedType | libiberty/cp-demangle.c:2251-2283 | the same for qualifiers, with the ref-qualifier moved outside |
| Mangling.SubstitutedType | libiberty/cp-demangle.c:2372-2404 | the same for a substitution with or without template arguments |
| Mangling.FunctionOf | libiberty/cp-demangle.c:2664-2683 | the same for function types, also when the part inside fails and only a ref-qualifier is left |
| Mangling.BareFunction | libiberty/cp-demangle.c:2736-2768 | 2n components, one more without a return type |
| Mangling.Parameters | libiberty/cp-demangle.c:2687-2731 | each round consumes a character or ends; two components a character pay for the list |
| Mangling.ArrayOf | libiberty/cp-demangle.c:2780-2822 | the same for arrays, with or without a dimension |
| Mangling.PointerToMember | libiberty/cp-demangle.c:2846-2883 | the same for pointers to members |
| Mangling.NameOf | libiberty/cp-demangle.c:1309-1381 | the same for names, two components to spare |
| Mangling.NestedName | libiberty/cp-demangle.c:1390-1423 | the same for nested names, qualifiers and ref-qualifier included |
| Mangling.Prefix | libiberty/cp-demangle.c:1436-1509 | each round consumes a character or returns, also when a bad substitution makes it start again; what it makes of the parts is `MangledTypesRead.PrefixRead` |
| Mangling.TemplateArgs | libiberty/cp-demangle.c:2927-2976 | three components to spare |
| Mangling.Arguments | libiberty/cp-demangle.c:2951-2971 | each round consumes a character or returns |
| Mangling.Substitution | libiberty/cp-demangle.c:3603-3689 | always consumes the S; at most two components, for standard names with a constructor name |
| Mangling.SourceName | libiberty/cp-demangle.c:1575-1586 | one component for at least two characters |
| Mangling.Encoding | libiberty/cp-demangle.c:1226-1283 | a name and the type of its function stay within two components and one substitution for each character |
| ManglingParser.Parser.ParseType | libiberty/cp-demangle.c:2228-2558 | on an array of 2*len components and a table of len substitutions, does exactly what the unlimited parser does: neither is ever exhausted |
| ManglingParser.Parser.ParseQualifiedType | libiberty/cp-demangle.c:2251-2283 | refines the unlimited production |
| ManglingParser.Parser.CloseQualifiers | libiberty/cp-demangle.c:2264-2282 | the in-place patches and the swap of the ref-qualifier, in the order of the code |
| ManglingParser.Parser.ParseCvQualifiers | libiberty/cp-demangle.c:2562-2629 | patching open operands one after another makes the whole chain |
| ManglingParser.Parser.MarkThis | libiberty/cp-demangle.c:2605-2626 | following the links turns every qualifier of the chain into one of `this` |
| ManglingParser.Parser.ParseRefQualifier | libiberty/cp-demangle.c:2634-2658 | refines the unlimited production |
| ManglingParser.Parser.ParseFunction | libiberty/cp-demangle.c:2664-2683 | refines the unlimited production |
| ManglingParser.Parser.ParseBareFunction | libiberty/cp-demangle.c:2736-2768 | refines the unlimited production |
| ManglingParser.Parser.ParseParameters | libiberty/cp-demangle.c:2687-2731 | the loop that patches the open tail refines the recursive list |
| ManglingParser.Parser.ParseArray | libiberty/cp-demangle.c:2780-2822 | refines the unlimited production |
| ManglingParser.Parser.ParsePointerToMember | libiberty/cp-demangle.c:2846-2883 | refines the unlimited production |
| ManglingParser.Parser.ParseName | libiberty/cp-demangle.c:1309-1381 | refines the unlimited production |
| ManglingParser.Parser.ParseNestedName | libiberty/cp-demangle.c:1390-1423 | refines the unlimited production |
| ManglingParser.Parser.ParsePrefix | libiberty/cp-demangle.c:1436-1509 | the loop refines the recursive production, which reads the parts of a name as `MangledTypesRead.PrefixRead` says |
| ManglingParser.Parser.ParseTemplateArgs | libiberty/cp-demangle.c:2927-2976 | refines the unlimited production |
| ManglingParser.Parser.ParseArguments | libiberty/cp-demangle.c:2951-2971 | the loop that patches the open tail refines the recursive list |
| ManglingParser.Parser.ParseSubstitution | libiberty/cp-demangle.c:3603-3689 | refines the unlimited production |
| ManglingParser.Parser.ParseSeqId | libiberty/cp-demangle.c:3614-3636 | the 32-bit number loop, overflow check included |
| ManglingParser.Parser.ParseSourceName | libiberty/cp-demangle.c:1575-1681 | refines the unlimited production |
| ManglingParser.Parser.MakeEmpty | libiberty/cp-demangle.c:848-858 | the next component of the array, or null when the array is full |
| ManglingParser.Parser.MakeComp | libiberty/cp-demangle.c:862-969 | a component, unless a needed operand is null |
| ManglingParser.Parser.AddSubstitution | libiberty/cp-demangle.c:3547-3557 | appends to the table, or fails on null and on a full table |
| ManglingParser.Parser.Backtrack | libiberty/cp-demangle.c:3693-3711 | cursor and substitutions are exactly those of the checkpoint, and the components made since are given up |
| ManglingParser.Parser.ParseConversionArgs | libiberty/cp-demangle.c:2366-2384 | template arguments tried after the parameter of a conversion: kept if more follow, and else cursor and table are as before, but not what was patched in older components |
| ManglingParser.DemangleType | libiberty/cp-demangle.c:5731-5760 | arrays sized from the length give what no limit would, and the type must take up the whole string |
| ManglingParser.Parser.ParseEncoding | libiberty/cp-demangle.c:1226-1283 | refines the unlimited production |
| ManglingParser.Parser.HasReturnType | libiberty/cp-demangle.c:1175-1194 | follows the qualifiers of `this` to the name |
| ManglingParser.DemangleName | libiberty/cp-demangle.c:1139-1159 | arrays sized from the length give what no limit would, and the name must take up the whole string |
| ManglingSafety.TypeSafe | libiberty/cp-demangle.c:2228-2558 | parsing a type keeps links going down in some ranking, for any set of components still open, which it leaves alone |
| ManglingSafety.NestedNameSafe | libiberty/cp-demangle.c:1390-1423 | the same for nested names with open qualifiers and an open ref-qualifier |
| ManglingSafety.ParametersSafe | libiberty/cp-demangle.c:2687-2731 | the same for lists with an open tail |
| ManglingSafety.NoCycles | libiberty/cp-demangle.c:1139-2558 | after parsing any string, as a name or as a type, no path of links leads back to its start |
| ManglingSafety.NothingDangles | libiberty/cp-demangle.c:1139-2558 | every link, every substitution and the result are null or a component that was made |
| ManglingSafety.FuelEnough | libiberty/cp-demangle.c:1175-1194 | so the search for the name under the qualifiers ends by itself: to allow more links than there can be components changes nothing |
| ManglingGraph.CloseQualifiersSafe | libiberty/cp-demangle.c:2264-2282 | closing the qualifiers, the swap of an earlier, registered ref-qualifier included, keeps links going down |
| ManglingGraph.CloseNestedSafe | libiberty/cp-demangle.c:1408-1418 | so does closing those of a nested name |
| ManglingGraph.AppendSafe | libiberty/cp-demangle.c:2709-2713 | so does patching the tail of a list |
| SubstitutionDictionary.EntryRead | libiberty/cp-demangle.c:3603-3645 | the encoding of any k, wherever it stands, is null when the overflow test notices it, and else is consumed and gives entry k modulo 2^32, or null if there is none |
| SubstitutionDictionary.Faithful | libiberty/cp-demangle.c:3614-3645 | for every k the table gives entry k, or null if there is none, if and only if k is below 2^32, the overflow is noticed, or k modulo 2^32 is behind the table |
| SubstitutionDictionary.ComesAround | libiberty/cp-demangle.c:3614-3645 | the two inputs for 2^32 and 2^33, read as entry 0 |
| SubstitutionDictionary.EntriesStay | libiberty/cp-demangle.c:3547-3557 | later parsing never changes an entry |
| MangledTypesRead.TypeRead | libiberty/cp-demangle.c:2228-2558 | every type in which nothing is abbreviated by number, encoded anywhere in a name, is parsed to its end and to a component that denotes it, and exactly its candidates for substitution are registered, in the order of the ABI; nested names, templates, names in std, the abbreviations of the standard library and ref-qualified functions are among the types |
| MangledTypesRead.PrefixRead | libiberty/cp-demangle.c:1436-1509 | the parts of a nested name denote the names joined from left to right, template arguments applied to all before them, and every prefix but the last is registered |
| MangledTypesRead.ArgumentsRead | libiberty/cp-demangle.c:2951-2971 | I .. E denotes the list of the arguments in order |
| MangledTypesRead.TemplateRead | libiberty/cp-demangle.c:1364-1379 | a name with arguments denotes their application; the name, what the arguments register and the whole become entries |
| MangledTypesRead.MemberNameRead | libiberty/cp-demangle.c:1390-1423 | the qualifiers and the ref-qualifier that stand first in a nested name go around it, the ref-qualifier outside |
| MangledTypesSteps.RefQualifiersParsed | libiberty/cp-demangle.c:2264-2282 | the ref-qualifier of a function moves outside of the qualifiers before it |
| MangledTypesRead.AbbreviationRead | libiberty/cp-demangle.c:3603-3645 | number k behind any such type is the component that denotes its k-th candidate |
| MangledTypesRead.VendorRead | libiberty/cp-demangle.c:2300-2304 | a type of a vendor is a component over its name |
| MangledTypesRead.VendorQualifierRead | libiberty/cp-demangle.c:2450-2455 | a qualifier of a vendor is a component over the type, with the name behind it |
| MangledTypesRead.EncodingRead | libiberty/cp-demangle.c:1226-1283 | a whole function is parsed to its name over its type, which has a result exactly when the name is a template, and registers the candidates in it |
| MangledTypesRead.FunctionRoundTrip | libiberty/cp-demangle.c:1139-1159 | a mangled function is consumed to its end and denotes the tree of the function |
| MangledTypesRead.RoundTrip | libiberty/cp-demangle.c:5774-5826 | a mangled type is consumed to its end and denotes the tree of the type, and the table holds its candidates |
| MangledTypesRead.Unambiguous | libiberty/cp-demangle.c:2228-2558 | types with the same encoding have the same tree |
| MangledTypesSteps.QualifiersParsed | libiberty/cp-demangle.c:2251-2283 | qualifiers stand outside what they qualify, in order, and qualify `this` before a function |
| MangledTypesRead.ParametersRead | libiberty/cp-demangle.c:2687-2731 | a list of encodings denotes the list of its types; a single void denotes an empty one |
| Streams.StreamMemory.Read | io/stream_memory.cpp:82-91 | copies what there is from the position on |
| Streams.StreamMemory.Seek | io/stream_memory.cpp:71-77 | goes to an offset inside, and stays where it is for any other |
| Streams.StreamMemory.Write | io/stream_memory.cpp:92-108 | overwrites what fits |
| Streams.Substream.Read | io/substream.cpp:36-47 | reads the window only, whatever the position of the parent |
| Streams.Substream.Seek | io/substream.cpp:25-31 | as for memory, within the window |
| Streams.Substream.Write | io/substream.cpp:48-59 | writes the window only |
| Streams.StreamCache.Read | io/stream_cache.hpp:44-68 | from any position inside, and whatever the size, and from the very end where the code stays inside its buffer: returns the underlying bytes, on a hit and on a miss, keeps the cached window equal to the parent, and the count for each case, over the end included |
| Streams.StreamCache.Seek | io/stream_cache.hpp:35-43 | goes to the offset or to the end |
| Streams.StreamCache.Write | io/stream_cache.hpp:69-74 | writes through what fits, leaves no stale hit, and does not move the position; from the very end, to where the parent stood |
| StreamRuns.RunCache | io/stream_cache.hpp:35-95 | every run of in-bounds calls returns the bytes underneath and ends at the position the calls add up to |
| StreamRuns.RunPlain | io/substream.cpp:25-59 | the same for the stream without the cache |
| StreamRuns.StepsAgree | io/stream_cache.hpp:35-95 | cached and uncached stream agree on a call unless it seeks to the end from elsewhere or writes |
| StreamRuns.CacheInvisible | io/stream_cache.hpp:35-95 | a caller that positions itself after every write and seeks only inside cannot tell them apart, over whole runs |
| StreamRuns.CacheExact | io/stream_cache.hpp:35-95 | whatever the bytes underneath and those written, a caller sees the same call by call, over whole runs, if and only if both stand at the same place whenever it reads or writes |
| StreamRuns.UnseenAlike | io/stream_cache.hpp:35-95 | for such a caller the two show the same after every call, on any contents |
| StreamRuns.Telling | io/stream_cache.hpp:35-95 | contents, and bytes to write, that show the difference to any other |
| StreamRuns.EndWrite | io/stream_cache.hpp:69-74 | a write at the end of three bytes that changes the first |
| Leb128.ReadUleb128 | io/stream_base.cpp:69-83 | the loop with 32-bit shifts |
| Leb128.ReadSleb128 | io/stream_base.cpp:84-102 | the same, with the sign extension |
| Leb128.UlebExact | io/stream_base.cpp:69-83 | any encoding of up to five bytes is consumed and read right if and only if its meaning is below 2^32 |
| Leb128.UlebRoundTrip | io/stream_base.cpp:69-83 | canonical encodings below 2^32 are read back, wherever they stand |
| Leb128.SlebExact | io/stream_base.cpp:84-102 | any signed encoding for which the shifts are defined (up to four bytes, or five without the sign) is consumed and read right if and only if its meaning is below 2^32 |
| Leb128.FifthGroupCut | io/stream_base.cpp:69-102 | an input on which both readers fail |
| Leb128.SlebRoundTrip | io/stream_base.cpp:84-102 | signed values from -2^27 to below 2^32 are read back |
| FormValue.FormValue.Parse | dwarf/CDWARFFormValue.cpp:355-600 | the keeping reader, through any chain of indirect forms, on any bytes of a section, those cut short at its end as without the cache; which bytes make which value is `FormEncoding.ValueRoundTrip` |
| FormValue.FormValue.Skip | dwarf/CDWARFFormValue.cpp:601-785 | the skipping reader, on the same bytes, unless the length of a block is cut short; how many bytes that is, is `FormEncoding.ValueSkipped` |
| FormValue.SkipAgrees | dwarf/CDWARFFormValue.cpp:355-785 | both succeed together and stop at the same place: always on the cached stream, on the others exactly unless a jump ends at the very end |
| FormEncoding.ValueRoundTrip | dwarf/CDWARFFormValue.cpp:355-600 | a value of any form, indirect ones included, in the width that section 7.5.4 of DWARF 4 gives it by address size, version and format, is read back to its last byte; a number in LEB128 of any size as what its own bytes are read as, wherever it stands |
| FormEncoding.ValueSkipped | dwarf/CDWARFFormValue.cpp:601-785 | the skipping reader comes to the same last byte |
| FormEncoding.LongOffsetCut | dwarf/CDWARFFormValue.cpp:355-600 | an offset is read to its end if and only if the format is the 32-bit one |
| FormEncoding.ReadRight | dwarf/CDWARFFormValue.cpp:355-600 | that is the number meant, below 2^32 and for signed ones from -2^27 |
| Leb128.UlebAnywhere | io/stream_base.cpp:69-102 | a number of any length takes up exactly its bytes, and is read as they are anywhere else |
| FormEncoding.StringExact | dwarf/CDWARFFormValue.cpp:355-600 | a string is read to its end if and only if it has at most two characters |
| FormEncoding.LongString | dwarf/CDWARFFormValue.cpp:355-600 | an input on which it is not |
| DebugInfo.ParseAll | dwarf/CDWARFDebugInfoEntry.cpp:18-48 | reads an entry and all its values |
| DebugInfo.ParseIf | dwarf/CDWARFDebugInfoEntry.cpp:77-119 | reads an entry, keeping the values of a compile unit only |
| DebugInfo.SkipEntryAgrees | dwarf/CDWARFDebugInfoEntry.cpp:18-119 | both see the same entry, values apart, and stop at the same place |
| DebugInfo.EntryForward | dwarf/CDWARFCompileUnit.cpp:62-79 | inside the section every entry takes at least one byte, so the loop ends |
| DieTree.TreeRows | dwarf/CDWARFCompileUnit.cpp:62-79 | the rows of a tree, at any depth and whatever follows, are its entries in prefix order, whether or not its numbers fit 32 bits |
| DieTree.UnitReadBack | dwarf/CDWARFCompileUnit.cpp:62-108 | every single-rooted tree, written with null terminators, is recovered with its true depths |
| CompileUnit.CompileUnit.Parse | dwarf/CDWARFCompileUnit.cpp:29-83 | header, versions and address sizes accepted, and the rows up to the end the header gives |
| CompileUnit.CompileUnit.ParseEntries | dwarf/CDWARFCompileUnit.cpp:60-81 | the loop makes exactly the rows of the specification, with 32-bit depths |
| CompileUnit.CompileUnit.Extract | dwarf/CDWARFCompileUnit.cpp:84-108 | one more row, or none for a null entry; the base address follows the unit entry |
| CompileUnit.CompileUnit.GetParentsIdxs | dwarf/CDWARFCompileUnit.cpp:232-257 | the backward loop |
| CompileUnit.CompileUnit.GetChildrensIdxs | dwarf/CDWARFCompileUnit.cpp:258-281 | the forward loop that stops at the first other depth |
| CompileUnit.CompileUnit.GetAllChildrensIdxs | dwarf/CDWARFCompileUnit.cpp:282-305 | the forward loop that stops at the first lesser depth |
| DieQueries.ParentsAreAncestors | dwarf/CDWARFCompileUnit.cpp:232-257 | for every entry but the root: exactly its ancestors, from parent to root |
| DieQueries.ChildrenAreSubtree | dwarf/CDWARFCompileUnit.cpp:258-305 | for every entry but the root: exactly its subtree in order, and its direct children up to the first with children |
| DieQueries.AllRootsLead | dwarf/CDWARFCompileUnit.cpp:258-281 | all direct children are found if and only if none but the last has children |
| DieQueries.RootHasNone | dwarf/CDWARFCompileUnit.cpp:258-305 | the root gets no children |
| DieQueries.PreorderDepths | dwarf/CDWARFCompileUnit.cpp:62-79 | the depths of the rows are the depths of the tree |
| CompileUnit.LazyIsEager | dwarf/CDWARFCompileUnit.cpp:320-330 | the skipping pass makes the rows of the eager one, values apart, and parsing a row at its offset later gives the eager row |
| CompileUnit.CompileUnit.FullExtract | dwarf/CDWARFCompileUnit.cpp:320-330 | parses the whole entry of a row at the offset noted for it, whatever was there before |
| CompileUnit.HighPcExact | dwarf/CDWARFDebugInfoEntry.cpp:147-214 | without a range list beside it, that is so for every address if and only if the sum stays below the value for "none" |
| CompileUnit.HighPcLost | dwarf/CDWARFDebugInfoEntry.cpp:147-214 | an entry of 2^64 - 2 addresses that holds none |
| CompileUnit.HighPcIsOffset | dwarf/CDWARFDebugInfoEntry.cpp:178-214 | in version 4 a constant high pc makes the entry hold exactly the addresses from the low one on, as many as it says, when the sum stays below the value for "none" |
| CompileUnit.IsInRange | dwarf/CDWARFDebugInfoEntry.cpp:147-172 | interval or range list, the list taken from the memo table; which addresses these are is `EntryExtents.HighIsAddress`, `EntryExtents.HighIsSize` and `EntryExtents.ListCounts` |
| EntryExtents.HighIsAddress | dwarf/CDWARFDebugInfoEntry.cpp:147-214 | in versions 2 and 3, and in version 4 for an address, an entry with the two attribute values lo and hi holds exactly the addresses from lo to below hi |
| EntryExtents.HighIsSize | dwarf/CDWARFDebugInfoEntry.cpp:178-214 | for a constant in version 4: exactly the addresses from lo to below lo + size |
| EntryExtents.ListCounts | dwarf/CDWARFDebugInfoEntry.cpp:147-172 | without the interval, an entry holds exactly the addresses of the encoded range list that its attribute points to, moved by the base address |
| EntryExtents.BaseExact | dwarf/CDWARFCompileUnit.cpp:84-108 | the base address is the low pc of the unit, or else its entry pc, or else none |
| EntryExtents.MatchesInterval | dwarf/CDWARFCompileUnit.cpp:415-460 | in terms of the two attribute values of an entry of a tree: which addresses make the search take it |
| CompileUnit.CompileUnit.GetDIEIdxsBy | dwarf/CDWARFCompileUnit.cpp:415-460 | the scan with values parsed on demand answers as the specification says on the rows it begins with; what that is on the tree is `AddressSearch.UnitSearch`, and on attribute values `EntryExtents.MatchesInterval` |
| CompileUnit.SearchAgain | dwarf/CDWARFCompileUnit.cpp:415-460 | on rows of which any were parsed in full meanwhile the answer is that on the rows first skipped, so that every later search answers as the first |
| UnitAnswers.HeaderTaken | dwarf/CDWARFCompileUnit.cpp:29-60 | a unit is taken if and only if its format is the 32-bit one, the low four bits of its version say 2, 3 or 4, and those of its address size 4 or 8 |
| UnitAnswers.UnitParsed | dwarf/CDWARFCompileUnit.cpp:29-83 | a unit written as section 7.5 of DWARF 4 says, header included, is parsed to its tree, and the parser's preconditions hold |
| UnitAnswers.UnitAnswers | dwarf/CDWARFCompileUnit.cpp:232-330 | on such a unit, ancestors, subtrees and later full parsing are right for every entry but the root |
| AddressSearch.UnitSearch | dwarf/CDWARFCompileUnit.cpp:415-460 | on such a unit, the address search gives, in prefix order of the tree, exactly the subprograms that hold the address, each followed by exactly the inlined subroutines of its subtree that hold it; a root that is a subprogram comes alone |
| AddressSearch.FoundExact | dwarf/CDWARFCompileUnit.cpp:415-460 | that is what it would be with the root taken as any other entry, if and only if the root does not hold the address as a subprogram or nothing inlined in it does |
| AddressSearch.RootLosesInlined | dwarf/CDWARFCompileUnit.cpp:415-460 | a unit of two entries of which the second is missing |
| AddressSearch.SearchForest | dwarf/CDWARFCompileUnit.cpp:415-460 | the same for the rows of any forest below the root |
| AddressSearch.InlinedOfForest | dwarf/CDWARFCompileUnit.cpp:435-455 | the scan for inlined subroutines over the rows of a subtree finds those of the tree |
| RangeTable.RangeTable.GetRangeBy | dwarf/CDWARFRangeTable.cpp:22-34 | finds the list with that offset if and only if there is one |
| RangeTable.RangeTable.ExtractRangeSetBy | dwarf/CDWARFRangeTable.cpp:35-44 | the list at an offset is a fresh parse there, independent of what was asked before; a strictly sorted table stays so if and only if the offset is inside the section or nothing is filed at its end yet |
| RangeTable.AskedKeepsOrder | dwarf/CDWARFRangeTable.cpp:22-44 | the same condition, for the table as a function of the one before |
| RangeTable.HistoryKeepsOrder | dwarf/CDWARFRangeTable.cpp:22-44 | every history of questions inside the section leaves the table strictly sorted |
| RangeTable.AskedTwice | dwarf/CDWARFRangeTable.cpp:22-44 | in any section, the first list and two questions behind the section, after which it is not |
| RangeTable.RangeTable.Extract | dwarf/CDWARFRangeTable.cpp:45-93 | one more list in its sorted place, equal to a fresh parse |
| RangeTable.RangeTable.Parse | dwarf/CDWARFRangeTable.cpp:6-21 | the table holds the lists one behind the other, each at its offset, strictly sorted; always returns false |
| RangeTable.ContainsAddress | dwarf/CDWARFRangeTable.h:61-70 | whether any range of a list, with 64-bit wrap-around, holds the address |
| RangeTable.RangesRoundTrip | dwarf/CDWARFRangeTable.cpp:45-93 | an encoded list is parsed to exactly its ranges |
| ArangeTable.ArangeTable.ParseSet | dwarf/CDWARFArangeTable.cpp:14-97 | one set, with its header checks and padding |
| ArangeTable.ArangeTable.Parse | dwarf/CDWARFArangeTable.cpp:98-116 | all sets, then sorted by end |
| ArangeTable.ArangeTable.GetRangesBy | dwarf/CDWARFArangeTable.cpp:117-139 | the binary search and the step back |
| ArangeTable.SetsRoundTrip | dwarf/CDWARFArangeTable.cpp:14-116 | any list of non-empty sets, written as section 6.1.2 of DWARF 4 says, is parsed to exactly its ranges |
| ArangeTable.LookupSound | dwarf/CDWARFArangeTable.cpp:117-139 | only a range that holds the address is returned |
| ArangeTable.LookupExact | dwarf/CDWARFArangeTable.cpp:117-139 | when exactly one range holds the address, empty ranges allowed, it is found if and only if every range before it ends before the address |
| ArangeTable.DisjointLookup | dwarf/CDWARFArangeTable.cpp:117-139 | among disjoint non-empty ranges: if and only if no range ends exactly there |
| ArangeTable.EndHidesNext | dwarf/CDWARFArangeTable.cpp:117-139 | two adjacent ranges, and the address between them that is not found |
| ArangeTable.EmptyHidesOther | dwarf/CDWARFArangeTable.cpp:117-139 | an empty range that hides every address of another |
| LineExpansion.ExpansionInvisible | dwarf/CDWARFDebugLine.cpp:306-411 | writing out every special opcode and DW_LNS_const_add_pc, byte by byte, changes no row and no register of any program of whole instructions, once opcodes 1 to 3 are standard |
| LineExpansion.InstructionLocal | dwarf/CDWARFDebugLine.cpp:241-411 | a complete instruction depends on its own bytes only |
| LineExpansion.ExtendedLocal | dwarf/CDWARFDebugLine.cpp:246-303 | so does an extended one, unless an unknown one jumps back into itself |
| LineTable.LineTable.Parse | dwarf/CDWARFDebugLine.cpp:226-419 | header, then the program run to the end the header gives; rows are a sorted permutation of those emitted, which are those written as `LineRows.ProgramExact` says |
| LineTable.LineTable.Execute | dwarf/CDWARFDebugLine.cpp:239-411 | one instruction does to rows, registers and bounds what the machine says |
| LineTable.LineTable.ExecuteExtended | dwarf/CDWARFDebugLine.cpp:246-303 | end of sequence, addresses of 4 and 8 bytes, files, and the jump over unknown ones |
| LineTable.LineTable.ExecuteStandard | dwarf/CDWARFDebugLine.cpp:304-393 | the twelve standard opcodes, and unknown ones skipped by their operand counts |
| LineTable.ParsePrologue | dwarf/CDWARFDebugLine.cpp:86-159 | the header, with its two lists bounded by a 32-bit end |
| LineTable.LineTable.LookupAddress | dwarf/CDWARFDebugLine.cpp:179-197 | a row exactly when the address lies between the least and the greatest of the table, and then none is nearer from below |
| LineRows.ProgramExact | dwarf/CDWARFDebugLine.cpp:226-419 | for every list of sequences of rows, written out with any of six ways to move the address, the program is run to exactly those rows from the registers of section 6.2.2 of DWARF 4, if and only if statements are not marked by default or there are no sequences |
| LineRows.ProgramGoes | dwarf/CDWARFDebugLine.cpp:226-419 | in any case it is run to its end, to those rows with the marks of the first sequence inverted as the default says |
| LineRows.SpecialExact | dwarf/CDWARFDebugLine.cpp:394-411 | the special opcode for an advance of address and line adds exactly that row |
| LineRows.EndExact | dwarf/CDWARFDebugLine.cpp:252-258 | the end of a sequence adds its row and sets the registers back to the first values |
| LineHeader.VersionTaken | dwarf/CDWARFDebugLine.cpp:86-110 | a table is taken if and only if its version is 2, 3 or 4 |
| LineHeader.HeaderRoundTrip | dwarf/CDWARFDebugLine.cpp:86-160 | every header is read back, length, version, program parameters and operand counts, and its directories and files are passed to the last byte, where the program begins |
| LineHeader.TableRoundTrip | dwarf/CDWARFDebugLine.cpp:226-419 | header and program together: the whole table is read back |
| LineAddresses.MaxExact | dwarf/CDWARFDebugLine.cpp:252-411 | the greatest address kept is that of the rows if and only if a highest row was not added by DW_LNS_copy, or all are zero |
| LineAddresses.ClosedSequencesMax | dwarf/CDWARFDebugLine.cpp:252-411 | so it is when every sequence goes up and is closed |
| LineAddresses.MinIsCounted | dwarf/CDWARFDebugLine.cpp:252-411 | the least address kept is that of the rows not added by DW_LNS_copy |
| LineAddresses.LoneCopy | dwarf/CDWARFDebugLine.cpp:306-313 | a program for which it is not |
| DebugLine.DebugLine.ExtractLineTableByOffset | dwarf/CDWARFDebugLine.cpp:521-531 | the table at an offset is a fresh parse there, independent of what was asked before; tables stay in the order of their greatest addresses |
| DebugLine.DebugLine.Extract | dwarf/CDWARFDebugLine.cpp:492-502 | one more table in its place, or none for an unknown version |
| DebugLine.DebugLine.Insert | dwarf/CDWARFDebugLine.cpp:486-491 | at the lower bound, nothing lost |
| DebugLine.DebugLine.GetLineTable | dwarf/CDWARFDebugLine.cpp:503-511 | the first table that reaches as far as the address |
| DebugLine.DebugLine.GetLineTableByOffset | dwarf/CDWARFDebugLine.cpp:512-520 | the table with that offset if and only if there is one |
| DebugLine.ParsedTwice | dwarf/CDWARFDebugLine.cpp:226-531 | two parses at an offset agree, up to the order of rows with equal addresses |
| DebugLine.GreatestIsLast | dwarf/CDWARFDebugLine.cpp:179-197 | then the greatest address is that of the last row, the bound of the lookup |

## Left out

- Printer.Printer.PrintComp: typed names with more than three qualifiers of `this` (the list on the C stack has four places), array types, template parameters, local names, saved template scopes, Java and return-postfix options, and the error flag are not modelled.
- Printer.Printer.PrintModifier: vendor qualifiers, and collapsing of references through template parameters.
- Printer.Printer.PrintFunction: the options that move or drop the return type.
- Printer.Printer.PrintTyped: local names and the template scope of the name.
- Printer.Printer.PushName: the qualifiers on the right of a local name.
- Printer.Printer.PrintModList: arrays and local names on the list.
- Printer.Printer.PrintMod: vendor qualifiers, vector types and typed names as modifiers.
- Printer.Printer.Brackets: vendor qualifiers.
- TypeNames.TypeName: arrays, which the printer model does not cover, and classes of pointers to members that are not names.
- Mangling.Type: template parameters, expressions, literals, decltype, vendor and decimal types spelled with D, local names and conversion operators are not followed; the model returns null there.
- Mangling.PlainType: the same letters.
- Mangling.ArrayOf: dimensions that are expressions.
- Mangling.NameOf: local names and operators; where C leaves the order of two calls in an argument list open, they are taken from left to right, which only shows in the numbers of components.
- Mangling.Prefix: constructors, destructors, operators, template parameters and decltype.
- Mangling.Arguments: expressions and literals.
- Mangling.UnqualifiedName: operators, constructors, destructors, local names, lambdas, unnamed types and tags are not followed.
- Mangling.SourceName: lengths of 2^31 and more, which the original narrows to an int, are taken as they are; a leading `n`, which the original takes for a sign after `u` and `U`, is not taken, so that the cursor of such a failed parse differs.
- Mangling.Substitution: the last name kept for constructors is made but not remembered; the verbose option is off.
- ManglingParser.Parser.ParseType: what Mangling.Type leaves out.
- ManglingParser.Parser.ParseArray: what Mangling.ArrayOf leaves out.
- ManglingParser.Parser.ParseName: what Mangling.NameOf leaves out.
- ManglingParser.Parser.ParsePrefix: what Mangling.Prefix leaves out.
- ManglingParser.Parser.ParseArguments: what Mangling.Arguments leaves out.
- ManglingParser.Parser.ParseSubstitution: what Mangling.Substitution leaves out.
- ManglingParser.Parser.ParseSourceName: what Mangling.SourceName leaves out.
- MangledTypesRead.TypeRead: a name must not be followed by template arguments or a tag, which would belong to it; what is abbreviated by number is not part of the grammar (what a number stands for is MangledTypesRead.AbbreviationRead).
- MangledTypesRead.RoundTrip: the same grammar, so that compressed encodings are not covered.
- MangledTypesRead.FunctionRoundTrip: the same grammar; constructors, destructors, operators and local names are not among the names.
- TypeNames.FunctionName: what TypeNames.TypeName leaves out, and more than three qualifiers of `this`, for which the original has no room.
- Mangling.Encoding: special names (`T`, `G`), the options that leave parameters out, and clone suffixes.
- ManglingParser.Parser.HasReturnType: the recursion has a bound on the links it follows, which ManglingSafety.FuelEnough shows to be no restriction.
- MangledTypesRead.Unambiguous: the same grammar.
- MangledTypesSteps.QualifiersParsed: function types with a ref-qualifier, for which see MangledTypesSteps.RefQualifiersParsed.
- SubstitutionDictionary.Faithful: a table of more than 2^32 entries.
- Special names (virtual tables, thunks, guards) and data whose name carries a type.
- The counters `expansion` and `did_subs`, memory allocation failure and the growth of vectors.
- Leb128.SlebExact: shifts of 32 and more (encodings of more than five bytes, and the sign of the fifth) are undefined in the original; they are taken modulo 32 and no theorem relies on them.
- Streams.StreamCache.Read: reads at the very end that leave the buffer or move the position behind the end; what a read over the end leaves in the destination behind the last byte; sharing a parent with another reader.
- Input.Stream.ReadFixed: at the very end of a section the readers of the model see fewer bytes, as without the cache; a hit over the end, which reports more, is stated of the cache only.
- FormValue.FormValue.Skip: a block whose length is cut short by the end of the section is excluded by a precondition where the two readers are compared, since its length is then never set.
- DebugInfo.ParseIf: the same.
- ManglingParser.Parser.ParseConversionArgs: the template parameter before the arguments is given, and only the branch for conversions is followed.
- FormEncoding.ValueRoundTrip: lengths, form codes and entry codes of 2^32 and more, and strings of more than two characters, which take the reader elsewhere.
- DebugInfo.AsUInt64: the word of a string as a number (a pointer) is taken as 0.
- CompileUnit.CompileUnit.Parse: a unit that ends behind the section makes the loop of the original run forever and is excluded; the name, the line-table offset and the 64-bit format are left out.
- CompileUnit.CompileUnit.Extract: the name and the line-table offset that the entry of the unit sets.
- LineTable.LineTable.Parse: a program that ends behind the section is excluded for the same reason, and so is a line range of zero, by which the original divides; operands cut short by the end of the section are taken as 0.
- LineTable.LineTable.ExecuteExtended: files defined by the program are read over, not kept.
- LineTable.ParsePrologue: names of directories and files are read over, not kept.
- DebugLine.DebugLine.ExtractLineTableByOffset: the programs that LineTable.LineTable.Parse excludes.
- DebugLine.DebugLine.Extract: the same.
- LineExpansion.ExpansionInvisible: programs in which an unknown extended opcode jumps back into its own bytes, which the code does because it counts from before the length.
- Sorting: elements with equal keys may come in any order, as the C++ standard leaves it.
- Base address selection entries, the walk over all tables of a line section, and lookups of entries by offset or pointer: they add only easy members.
- Mach-O loading, directory search, compression, hashing and the legacy demangling styles.
