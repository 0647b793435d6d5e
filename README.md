# A model of the TPC compiler's middle and back end

TPC is a small C-like language with `char` and `int` values, one-dimensional
arrays, functions and four runtime routines (`putchar`, `putint`, `getchar`,
`getint`). The compiler reads a source file, builds an abstract syntax tree,
fills a program-wide symbol table, checks the program and writes x86-64 NASM
assembly. This project models, in Dafny, everything between the tree and the
assembly text:

- `registers.dfy` (module `Registers`): the register enumeration, its names,
  and the System V order of the six argument registers.
- `symbols.dfy` (module `Symbols`): identifiers, `strcmp`, the symbol record,
  its type and kind names, and the text of a symbol's location.
- `wrappers.dfy` (modules `Wrappers` and `Errors`): `Option`, and the error
  flags the passes OR together, with the two ways the process can stop early
  (an `exit` with an error code, or a failed assertion or NULL dereference).
- `arraylist.dfy` (module `ArrayLists`): the generic growable array. It is a
  class over an `array`, with a sorted insert by binary search and a search.
- `scopes.dfy` (module `Scopes`): one scope table (global, parameter or
  local). Symbols are kept sorted by name and addresses are handed out from
  the scope's counter. The class `ScopeTable` is proved against the value
  function `ScopeAdd`.
- `ast.dfy` (module `Ast`): the tree as the passes read it. The node tree
  with child and sibling pointers becomes an algebraic datatype.
- `symboltable.dfy` (module `SymbolTable`): building the program table from
  the tree. This covers the two revisions `symboltable.c` and `symbolTable.c`.
  They differ only in the return type declared for `putchar`, so `Revision`
  selects it.
- `lookup.dfy` (module `Lookup`): the queries on the program table: name
  resolution, the function lookup, the parameter lookup, and the
  "defined before use" order test.
- `semantic.dfy` (module `Semantic`): the semantic checker. It is a value
  function per pass, each with a method that walks the statements the way
  the C loop does.
- `codewriter.dfy` (module `CodeWriter`): the instruction patterns each
  emitter writes, as abstract instructions. It includes a small machine for
  the register and stack fragment those patterns use, with 64-bit
  wrap-around and `idiv` semantics.
- `treereader.dfy` (module `TreeReader`): the code generator's walk over the
  tree. It is a value function per node kind; the `Emit*` methods write to
  a `Writer` and are proved against those functions.
- `table.dfy` (module `Table`): the earlier linear symbol table. Each cell
  starts where the previous one ends; the first one's address is read from
  before the buffer.
- `options.dfy` (module `Options`): the command-line settings, the
  option switch, and the default output file name.

Three points of the code shape the model:

- `symboltable.c` declares the default function `putchar` returning `int`;
  `symbolTable.c` declares it returning `void` (`SymbolTable.Builtins`).
- The user's function symbols take size 0 (`SymbolTable.FunctionSymbol`),
  while the four default functions are given the size of their return type
  (`SymbolTable.DefaultSymbol`). Being function symbols, they take no
  storage (`SymbolTable.DefaultsStoreNothing`), and the global declarations
  restart the address counter at 0 (`SymbolTable.GlobalsPacked`).
- A function body with no direct `return` is reported with
  `ERR_RETURN_TYPE_VOID` even when the function returns `void`, although
  the diagnostic speaks of a non-void function (second row of "Findings"
  below). `Semantic.Check` keeps that behaviour;
  `Semantic.SuiteCheckIntended` states the check the wording describes.

## Model

| member | source | states |
|---|---|---|
| Registers.Ordinal | src/registers.h:4-23 | RAX is 1, and every register's value lies between 1 and 16 |
| Registers.ToStr | src/registers.c:5-26 | every register has a non-empty lower-case name, which is the entry of the name table at its enumerator value |
| Registers.ToStrInjective | src/registers.c:5-26 | two different registers never share a name |
| Registers.ParamToReg | src/registers.c:29-41 | the body maps argument positions 0 to 5 to rdi, rsi, rdx, rcx, r8 and r9 in that order; the ensures state that the result is a parameter register and never rax, rsp or rbp |
| Registers.ParamToRegInjective | src/registers.c:29-41 | two different argument positions use two different registers |
| Symbols.Strcmp | src/symbol.c:6-8 | equal names compare 0, and a proper prefix sorts before the longer name |
| Symbols.StrcmpZeroIff | src/symbol.c:6-8 | the comparison of identifiers is 0 exactly on equal names |
| Symbols.StrcmpAntisymmetric | src/symbol.c:6-8 | swapping the two names negates the comparison |
| Symbols.LessTransitive | src/symbol.c:6-8 | the order the comparison induces is transitive |
| Symbols.LessTotal | src/symbol.c:6-8 | any two names are equal or ordered one way or the other |
| Symbols.LessIrreflexive | src/symbol.c:6-8 | no name sorts before itself |
| Symbols.SymbolCmp | src/symbol.c:6-8 | two symbols compare equal exactly when their identifiers are equal, and below zero exactly when the first identifier sorts first |
| Symbols.TypeStr | src/symbol.c:10-18 | a type's name is one of "char", "int", "void", and it is "void" exactly for void |
| Symbols.TypeStrInjective | src/symbol.c:10-18 | different types get different names |
| Symbols.KindStr | src/symbol.c:20-29 | a kind's name is one of the four upper-case names, and it is "FUNCTION" exactly for functions |
| Symbols.IntToStringRoundTrip | src/symbol.c:31-39 | the decimal text of an address reads back as the same address, negative ones included |
| Symbols.LocationStr | src/symbol.c:31-39 | a symbol in memory yields text that reads back as its address; a symbol on a register yields that register's table entry, or NULL when it has no register |
| ArrayLists.InsertionPointIsIndex | src/arraylist.c:70-93 | any place where everything before is smaller and everything after is larger is the count of smaller elements |
| ArrayLists.InsertionIndexIsPoint | src/arraylist.c:70-93 | on a sorted list without the key, the count of smaller elements is such a place |
| ArrayLists.PositionIsInsertionPoint | src/arraylist.c:70-93 | without an element of that key, a place that keeps the list sorted is that place |
| ArrayLists.InsertKeepsSorted | src/arraylist.c:95-115 | inserting at a sort-preserving place keeps the list sorted |
| ArrayLists.ArrayList.constructor | src/arraylist.c:7-24 | an empty list with the requested capacity, element size and comparator |
| ArrayLists.ArrayList.Realloc | src/arraylist.c:26-36 | the buffer is replaced by a larger one and the elements in use are kept |
| ArrayLists.ArrayList.ReallocExtend | src/arraylist.c:44-49 | the buffer grows by one block exactly when the list is full, and afterwards a slot is free |
| ArrayLists.ArrayList.Append | src/arraylist.c:51-61 | the element goes last, the earlier elements stay, and the capacity grows only when the list was full |
| ArrayLists.ArrayList.BsearchIndex | src/arraylist.c:70-93 | the result is an element of the key when one exists; otherwise it is the place where inserting keeps the order |
| ArrayLists.ArrayList.ShiftInsert | src/arraylist.c:106-110 | the memmove and memcpy open a gap at the index and put the element there, the rest shifted by one |
| ArrayLists.ArrayList.SortedInsert | src/arraylist.c:95-115 | the list stays sorted, gains exactly the new element (as a multiset), and the element sits at a sort-preserving place |
| ArrayLists.ArrayList.Get | src/arraylist.c:117-126 | an index from `-len` to `len - 1` gives an element, a negative one counting from the end; any other gives NULL |
| ArrayLists.ArrayList.Pop | src/arraylist.c:128-135 | NULL on an empty list; otherwise the last element, which leaves the list |
| ArrayLists.ArrayList.Resize | src/arraylist.c:137-140 | the length becomes the new size over the same buffer; shrinking keeps the leading elements |
| ArrayLists.ArrayList.Clear | src/arraylist.c:151-153 | the list becomes empty and keeps its buffer |
| ArrayLists.ArrayList.GetLength | src/arraylist.c:155-157 | the number of elements in use |
| ArrayLists.ArrayList.Search | src/arraylist.c:165-170 | a found index holds an element of the key; NULL means no element has it |
| ArrayLists.ArrayList.Contains | src/arraylist.c:172-174 | true exactly when some element compares equal |
| Scopes.FindName | src/symboltable.c:104-112 | the first position of a symbol with that name, or none exactly when no symbol has it |
| Scopes.Get | src/symboltable.c:104-112 | a found symbol is in the scope and bears the name; NULL exactly when no symbol bears it; the same code is at symbolTable.c:127-135 in the later revision |
| Scopes.GetUnique | src/symboltable.c:104-112 | in a valid scope every stored symbol is what its own name finds |
| Scopes.NameIndexIsInsertionIndex | src/arraylist.c:70-93 | the scope's insertion position is the array list's insertion index under the name comparator |
| Scopes.SortedInsertContents | src/arraylist.c:95-115 | inserting adds exactly the new symbol and loses none |
| Scopes.InsertIsStrictlySorted | src/arraylist.c:95-115 | on a name the scope lacks, the insertion keeps the scope strictly sorted, at the binary search's insertion point |
| Scopes.InsertIsIndexed | src/symboltable.c:54-102 | the declaration indices stay exactly 0 to n-1, each used once |
| Scopes.Placed | src/symboltable.c:54-102 | a stored symbol keeps its name, kind and size, receives the next declaration index, and is a parameter when the scope is the parameter scope |
| Scopes.ScopeAdd | src/symboltable.c:54-102 | a redeclaration is flagged exactly when the name is already held, and then the scope is unchanged; no other flag is raised; the same code is at symbolTable.c:78-125 in the later revision |
| Scopes.AddContents | src/symboltable.c:54-102 | a successful add stores exactly the placed symbol besides those already there |
| Scopes.AddKeepsValid | src/symboltable.c:54-102 | adding keeps a scope sorted by name without duplicates, with indices a permutation of 0 to n-1 |
| Scopes.AddThenGet | src/symboltable.c:54-102 | after an add the new name finds the placed symbol, and every other name finds what it found before |
| Scopes.GetMember | src/symboltable.c:104-112 | in a valid scope a stored symbol is found by its name |
| Scopes.AddNames | src/symboltable.c:54-102 | a name is held after an add exactly when it was held before or is the added one |
| Scopes.AddKeepsPacked | src/symboltable.c:89-92 | a global add puts the new symbol at the total size of the stored symbols declared before it and grows the counter by its size, so the packing is kept; the same code is at symbolTable.c:113-115 in the later revision |
| Scopes.AddKeepsLaid | src/symboltable.c:54-102 | storage addresses stay inside the scope's region, and no two stored symbols overlap; the same code is at symbolTable.c:95-122 in the later revision |
| Scopes.NothingStoredIsLaid | src/symboltable.c:21-26 | a scope storing nothing is laid out for any floor at or below its counter |
| Scopes.BufferInsertAgrees | src/arraylist.c:95-115 | the position the buffer picks for an absent name gives the same sequence as the scope's insertion |
| Scopes.ScopeTable.constructor | src/symboltable.c:21-26 | an empty scope of the given kind: next address 0, next parameter address 16 |
| Scopes.ScopeTable.Add | src/symboltable.c:54-102 | the table becomes the scope ScopeAdd gives, and the returned flags are its flags |
| SymbolTable.TypeOfKeyword | src/symboltable.c:187-195 | "char" gives byte, "int" gives num, and any other keyword gives nothing |
| SymbolTable.TypeSize | src/symboltable.c:170-179 | the size is 0 exactly for void, and at most 8 bytes; the same code is at symbolTable.c:194-203 in the later revision |
| SymbolTable.DeclSymbol | src/symboltable.c:205-286 | the symbol of a declarator: its name, its type and element size; global values and arrays are static; an array's length and total size are set; an array parameter is an 8-byte pointer |
| SymbolTable.NodeSymbols | src/symboltable.c:205-286 | one symbol per declarator, in order, with the declarator's name |
| SymbolTable.ZeroErrsIff | src/symboltable.c:205-286 | the zero-size flag is raised exactly when a declared array has length 0 |
| SymbolTable.DeclErrsKinds | src/symboltable.c:205-286 | declarations raise only the redeclaration and zero-size flags, the latter exactly for an array of length 0 |
| SymbolTable.TypesZeroErrsIff | src/symboltable.c:205-286 | over several type nodes, the zero-size flag is raised exactly when one of them declares an array of length 0 |
| SymbolTable.AddTypeNode | src/symboltable.c:205-286 | one type node's declarators are added in order, and its flags are returned |
| SymbolTable.CreateFromType | src/symboltable.c:205-286 | all declarations are added in order; the flags are those of the adds and the zero-size checks |
| SymbolTable.CreateFromDeclVars | src/symboltable.c:297-308 | the same, after the scope's address counter is set to the offset |
| SymbolTable.AddAllKeepsValid | src/symboltable.c:205-286 | adding declarations keeps the scope valid |
| SymbolTable.AddAllKeepsLaid | src/symboltable.c:205-286 | adding declarations keeps storage disjoint and inside the region |
| SymbolTable.AddAllNames | src/symboltable.c:205-286 | a name is held afterwards exactly when it was held before or is declared |
| SymbolTable.AddAllRedeclared | src/symboltable.c:205-286 | the redeclaration flag is raised exactly when some declared name was already held or declared earlier |
| SymbolTable.AddNodesKeepsValid | src/symboltable.c:205-286 | adding several type nodes keeps the scope valid |
| SymbolTable.AddNodesKeepsLaid | src/symboltable.c:205-286 | adding several type nodes keeps the layout |
| SymbolTable.AddNodesKeepsNames | src/symboltable.c:205-286 | a name held before the declarations is still held after them |
| SymbolTable.RetType | src/symboltable.c:366-413 | void exactly when the function has no type keyword, otherwise the keyword's type |
| SymbolTable.FunctionSymbol | src/symboltable.c:366-413 | a user function is a static function symbol with the return type and size 0 |
| SymbolTable.FunctionTableOf | src/symboltable.c:366-413 | a function's table carries its name and return type, a parameter scope and a local scope |
| SymbolTable.ShadowErrsIff | src/symboltable.c:335-354 | the redeclaration flag is raised exactly when some local bears a parameter's name |
| SymbolTable.CheckRedeclaredParamsInLocals | src/symboltable.c:335-354 | the loop over the locals returns exactly those flags; the same code is at symbolTable.c:362-381 in the later revision |
| SymbolTable.FillTables | src/symboltable.c:366-413 | the parameter scope is built from the parameter list and the local scope from the body's declarations, and the flags of both are returned |
| SymbolTable.CreateFromDeclFonct | src/symboltable.c:366-413 | the function's symbol is added to the global scope, its table is returned, and the flags of all its checks are returned |
| SymbolTable.FunctionErrsKinds | src/symboltable.c:366-413 | a function's declarations raise only the redeclaration and zero-size flags |
| SymbolTable.FunctionTableLaid | src/symboltable.c:318-327 | the parameter scope is laid out from 0, and the local scope from where the parameters end |
| SymbolTable.LocalsBelowParams | src/symboltable.c:366-413 | a local and a parameter never overlap; the same code is at symbolTable.c:394-445 in the later revision |
| SymbolTable.Builtins | src/symboltable.c:497-539 | four default functions, putchar, putint, getchar and getint in that order, returning void, void, char and int, except that putchar returns int here and void in the later revision (symbolTable.c:532-574) |
| SymbolTable.DefaultSymbol | src/symboltable.c:450-486 | a default function's global symbol is a static function symbol flagged as default, sized by its return type |
| SymbolTable.ParamSymbol | src/symboltable.c:450-486 | a default function's parameter is a value parameter of its type and size |
| SymbolTable.DefaultTable | src/symboltable.c:450-486 | a default function's table has its name and return type and no locals |
| SymbolTable.DefaultParams | src/symboltable.c:450-486 | the parameter scope built for a default function is that table's |
| SymbolTable.ProgramTable.constructor | src/symboltable.c:556-572 | an empty global scope and no functions |
| SymbolTable.ProgramTable.AddDefaultFunction | src/symboltable.c:450-486 | the default function's symbol goes into the global scope and its table is appended |
| SymbolTable.ProgramTable.AddDefaultFunctions | src/symboltable.c:497-539 | the four default functions are added in order |
| SymbolTable.ProgramTable.AddDeclFonct | src/symboltable.c:423-437 | one declared function is added and its table appended |
| SymbolTable.ProgramTable.FromDeclFoncts | src/symboltable.c:423-437 | all declared functions are added in order, with their flags |
| SymbolTable.GlobalsOfProg | src/symboltable.c:556-572 | the defaults are added, then the global variables from offset 0, with their flags |
| SymbolTable.FromProg | src/symboltable.c:556-572 | the program table is ProgramOf(rev, t), and the flags are ProgramErrs(rev, t); the same code is at symbolTable.c:591-607 in the later revision |
| SymbolTable.ProgramFunctions | src/symboltable.c:556-572 | the functions are the four defaults, then one table per declared function in declaration order; the same code is at symbolTable.c:591-607 in the later revision |
| SymbolTable.FonctsErrsKinds | src/symboltable.c:423-437 | declaring functions raises only the redeclaration and zero-size flags |
| SymbolTable.ProgramErrsKinds | src/symboltable.c:556-572 | building a whole program raises only those two flags |
| SymbolTable.AddDefaultsNames | src/symboltable.c:497-539 | after the defaults, a name is held exactly when it was held before or is a default function's |
| SymbolTable.AddFonctsNames | src/symboltable.c:423-437 | after the functions, a name is held exactly when it was held before or is a declared function's |
| SymbolTable.FunctionsDeclared | src/symboltable.c:556-572 | every function table's name is in the global scope |
| SymbolTable.DefaultsStoreNothing | src/symboltable.c:497-539 | the default functions keep the global scope valid and add nothing that takes storage |
| SymbolTable.AddFonctsKeepsLaid | src/symboltable.c:423-437 | declaring functions keeps the global scope valid and laid out |
| SymbolTable.GlobalsLaid | src/symboltable.c:556-572 | the global scope is valid, and each global variable lies between offset 0 and the counter without overlapping another |
| SymbolTable.GlobalsPacked | src/symboltable.c:556-572 | each global variable's address is the total size of the variables declared before it, and the counter, which sizes the static block, is the total size of all of them: the globals lie side by side from 0 in declaration order (the counter reset is at symboltable.c:299, 566; symbolTable.c:323, 601 in the later revision) |
| SymbolTable.AddAllKeepsPacked | src/symboltable.c:89-92 | a run of global adds keeps every stored global at the size of those declared before it |
| SymbolTable.AddNodesKeepsPacked | src/symboltable.c:297-308 | the global declarations keep that packing |
| SymbolTable.AddFonctsKeepsPacked | src/symboltable.c:423-437 | the user functions' symbols, which take no bytes, keep that packing |
| Lookup.Resolve | src/symboltable.c:114-125 | a name resolves exactly when some scope holds it: a local first, then a parameter, then a global; the same code is at symbolTable.c:137-148 in the later revision |
| Lookup.ResolveFromNode | src/symboltable.c:143-162 | an unresolved name exits with the undeclared-symbol code; otherwise the symbol is the one Resolve finds; the same code is at symbolTable.c:167-192 in the later revision |
| Lookup.LocalsShadow | src/symboltable.c:114-125 | a local's name resolves to that local, whatever the other scopes hold |
| Lookup.ParamsShadow | src/symboltable.c:114-125 | a parameter whose name no local bears resolves to that parameter |
| Lookup.FunctionIndex | src/symboltable.c:574-583 | the first function table with that name, or none exactly when no table bears it |
| Lookup.GetFromName | src/symboltable.c:574-583 | the forward scan finds that table; the same code is at symbolTable.c:609-618 in the later revision |
| Lookup.ParamWithIndex | src/symboltable.c:133-141 | a found parameter is stored and carries the index |
| Lookup.ParamWithIndexMissing | src/symboltable.c:133-141 | NULL exactly when no stored parameter carries the index |
| Lookup.GetParam | src/symboltable.c:133-141 | the forward scan finds that parameter; the same code is at symbolTable.c:157-165 in the later revision |
| Lookup.ParamIndexRange | src/symboltable.c:133-141 | in a valid table a parameter is found exactly for indices below the parameter count |
| Lookup.ParamOfOwnIndex | src/symboltable.c:133-141 | each parameter is the one found for its own index |
| Lookup.FunctionIndexAt | src/symboltable.c:574-583 | a name first held at position k is found at k |
| Lookup.BuiltinNamesDistinct | src/symboltable.c:497-539 | the four default names differ |
| Lookup.BuiltinsFound | src/symboltable.c:556-572 | each default name finds its own table, whatever the user declares |
| Lookup.DefinedBeforeUse | src/symboltable.c:127-131 | allowed exactly when the callee is not after the caller: a missing callee (NULL), an earlier one and the caller itself pass, and a later one fails |
| Lookup.BuiltinsCallable | src/symboltable.c:127-131 | every declared function may call the defaults |
| Lookup.DeclaredFound | src/symboltable.c:127-131 | with distinct names, a declared function finds its own table and may call itself |
| Lookup.LaterNotDefined | src/symboltable.c:127-131 | a function declared after the caller is not defined before use; the same code is at symbolTable.c:150-155 in the later revision |
| Lookup.ParamCount | src/symboltable.c:585-587 | on a valid parameter table, every declaration index is below the count and every index below it is used |
| Lookup.BuiltinParamCounts | src/symboltable.c:585-587 | putchar and putint take one parameter, getchar and getint none; the same code is at symbolTable.c:620-622 in the later revision |
| Semantic.Then | src/semantic.c:289-296 | after a stop nothing more happens; otherwise flags are ORed and messages appended |
| Semantic.ExprCheck | src/semantic.c:53-108 | an expression raises only call and identifier flags, and stops only by the undeclared-symbol exit |
| Semantic.CallCheck | src/semantic.c:16-51 | a callee not defined before the caller is reported first, printed but not ORed into the result; otherwise the call adds nothing of its own, leaving only the argument loop's result |
| Semantic.ArgsCheck | src/semantic.c:16-51 | the argument loop raises only expression flags |
| Semantic.ReturnCheck | src/semantic.c:120-163 | in a void function a returned value is flagged; in another function a missing value is flagged, and a value is checked as an expression |
| Semantic.StmtCheck | src/semantic.c:165-219 | a statement raises no main flag and stops only by an exit or an assertion |
| Semantic.StmtsCheck | src/semantic.c:179-219 | the same for a statement list |
| Semantic.SuiteCheck | src/semantic.c:179-219 | the same for a function body as the code checks it |
| Semantic.SuiteCheckIntended | src/semantic.c:179-219 | the same for the corrected body check |
| Semantic.ContextOf | src/semantic.c:221-232 | the table the checker uses is the first one carrying the function's name |
| Semantic.DeclFonctCheck | src/semantic.c:221-232 | a function raises no main flag |
| Semantic.DeclFonctsCheck | src/semantic.c:234-247 | the functions raise no main flag |
| Semantic.MainCheck | src/semantic.c:249-287 | each of the three main flags is raised exactly when main is missing, main does not return int, or main has parameters |
| Semantic.Check | src/semantic.c:289-296 | the result raises only the checker's flags |
| Semantic.FunctionCall | src/semantic.c:16-51 | the order test and the argument loop give CallCheck |
| Semantic.SuiteInstr | src/semantic.c:179-219 | the statement loop, with its return-seen flag, gives SuiteCheck |
| Semantic.DeclFoncts | src/semantic.c:234-247 | the function loop gives DeclFonctsCheck |
| Semantic.SemanticCheck | src/semantic.c:289-296 | the program check gives Check |
| Semantic.ProgramConsistent | src/symboltable.c:556-572 | a table built from a tree gives every function a table and every table a global symbol |
| Semantic.StmtsReturnErrs | src/semantic.c:120-163 | over a list, each return flag is raised exactly when some statement's check raises it |
| Semantic.SuiteMissingReturn | src/semantic.c:179-219 | the missing-return flag is raised exactly by a wrong return or a list without one, and in a void function exactly when it has none |
| Semantic.VoidEmptyBodyRejected | src/semantic.c:179-219 | a void function with an empty body is reported |
| Semantic.SuiteIntendedReturnErrs | src/semantic.c:179-219 | in the corrected check a void function never raises the missing-return flag |
| Semantic.VoidEmptyBodyAccepted | src/semantic.c:179-219 | the corrected check accepts that body |
| Semantic.ArgsUnion | src/semantic.c:16-51 | when nothing stops, a call's flags are exactly its arguments' flags |
| Semantic.ThenAllUnion | src/semantic.c:289-296 | when nothing stops, the composed flags are exactly the union of the steps' flags |
| Semantic.DeclFonctsUnion | src/semantic.c:234-247 | when nothing stops, the functions' flags are exactly the union of each function's flags |
| Semantic.CheckUnion | src/semantic.c:289-296 | every flag of a function or of the main checks reaches the result, and no other |
| Semantic.EarlierCallSilent | src/semantic.c:16-51 | the caller has its table, and a call without arguments to a function declared at or before it (itself included) prints nothing and raises nothing |
| Semantic.LaterCallPrinted | src/semantic.c:16-51 | calling a function declared later prints the use-before-definition diagnostic first |
| Semantic.IdentifierRules | src/semantic.c:53-108 | calling a non-function is flagged, a function read as a value is flagged, and a call goes to CallCheck |
| Semantic.UndeclaredExits | src/semantic.c:53-108 | an unresolved identifier exits with the undeclared-symbol code and nothing after it is checked |
| CodeWriter.OpeCode | src/codeWriter.c:68-90 | exactly the five operators have a pattern; each pops two operands and pushes one, leaving rsp and rbp alone |
| CodeWriter.DivCodeFixed | src/codeWriter.c:68-90 | the corrected division pattern also pops two and pushes one |
| CodeWriter.UnaryCode | src/codeWriter.c:92-101 | the unary pattern keeps the stack depth, and it is empty for any operator but `-` |
| CodeWriter.ConstantCode | src/codeWriter.c:103-117 | a constant is one push of an immediate |
| CodeWriter.LoadValueCode | src/codeWriter.c:380-405 | a value is one push, from the static area for a global and from the frame slot otherwise |
| CodeWriter.ArrayBaseCode | src/codeWriter.c:235-267 | the array base ends up in rdx, from the static area or the frame |
| CodeWriter.LoadArrayAddressCode | src/codeWriter.c:278-296 | an array argument is its base pushed |
| CodeWriter.ElementAddressTail | src/codeWriter.c:308-344 | the index is popped, and base plus index times element size is pushed |
| CodeWriter.LoadElementCode | src/codeWriter.c:354-370 | reading an element replaces the index by the element |
| CodeWriter.StoreElementCode | src/codeWriter.c:483-502 | writing an element consumes the value and the index |
| CodeWriter.StoreValueCode | src/codeWriter.c:440-473 | writing a value pops it into the static slot or the frame slot |
| CodeWriter.RegisterParams | src/codeWriter.c:151-200 | the smaller of the count and 6 |
| CodeWriter.PopParams | src/codeWriter.c:151-200 | one pop per register parameter |
| CodeWriter.PopParamsAt | src/codeWriter.c:151-200 | the i-th pop fills the i-th argument register |
| CodeWriter.CallTail | src/codeWriter.c:151-200 | the pops, then the call, then rax pushed |
| CodeWriter.FrameOpen | src/codeWriter.c:522-552 | rbp saved, the frame set up and the locals reserved, one push in all |
| CodeWriter.SaveParams | src/codeWriter.c:522-552 | the prologue's moves stop at the first index without a parameter (the NULL dereference) |
| CodeWriter.SaveParamsAt | src/codeWriter.c:522-552 | each move stores the register of its index into the slot of the parameter declared at that index |
| CodeWriter.SaveParamsComplete | src/codeWriter.c:522-552 | on a valid parameter table every move is there |
| CodeWriter.FrameStartCode | src/codeWriter.c:522-552 | the prologue begins with the frame opening and has net effect one push |
| CodeWriter.FrameStartComplete | src/codeWriter.c:522-552 | on a valid table the prologue stores min(count, 6) parameters |
| CodeWriter.InitFileCode | src/codeWriter.c:34-53 | only the global table passes the assertion; then the header reserves its bytes and the entry point follows |
| CodeWriter.TrackSafe | src/codeWriter.c:522-560 | code that leaves rsp and rbp alone moves rsp by eight bytes per net push and keeps rbp |
| CodeWriter.TrackPrologue | src/codeWriter.c:522-552 | the prologue sets rbp one qword below the caller's rsp and reserves the locals below it |
| CodeWriter.TrackEpilogue | src/codeWriter.c:554-560 | the epilogue restores rsp to the frame base and pops the saved rbp |
| CodeWriter.FrameEndCode | src/codeWriter.c:554-560 | the epilogue takes one qword off the stack, pushes nothing and does not return |
| CodeWriter.EntryCode | src/codeWriter.c:24-32 | `_start` calls main and ends with the system call, and nothing before it returns or calls the system |
| CodeWriter.EntryPassesResult | src/codeWriter.c:24-32 | after main returns, its result in rax becomes the exit status in rdi and rax holds the `exit` number 60 |
| CodeWriter.Wrap64 | src/codeWriter.c:68-90 | a 64-bit register keeps the value modulo 2^64 in the signed range |
| CodeWriter.WrapArith | src/codeWriter.c:68-90 | wrapping the operands first does not change the wrapped sum, difference or product |
| CodeWriter.PopParamsLoad | src/codeWriter.c:151-200 | the pops load the arguments pushed last to first into the argument registers in order |
| CodeWriter.CallLoads | src/codeWriter.c:151-200 | in a call pattern, everything before the call leaves the arguments in their registers |
| CodeWriter.OpeArithmetic | src/codeWriter.c:68-90 | `+`, `-` and `*` replace the two operands by their wrapped result, the left one being deeper |
| CodeWriter.BinaryStep | src/codeWriter.c:68-90 | the left code, the right code and the operator combine the two values they push |
| CodeWriter.UnaryNegation | src/codeWriter.c:92-101 | unary minus replaces the top by its wrapped negation |
| CodeWriter.QuotientFits | src/codeWriter.c:68-90 | a truncated quotient of 64-bit operands fits, MIN / -1 aside |
| CodeWriter.DivNonNegative | src/codeWriter.c:68-90 | the division pattern as written is right for a non-negative dividend and a non-zero divisor |
| CodeWriter.DivNegativeWrong | src/codeWriter.c:68-90 | as written, -7 / 2 pushes 0x7FFF_FFFF_FFFF_FFFC and leaves rdx at 1, not -3 |
| CodeWriter.DivFixedCorrect | src/codeWriter.c:68-90 | with the sign extension, `/` and `%` give C's truncated quotient and remainder for all 64-bit operands, MIN / -1 aside |
| CodeWriter.Writer.InitFile | src/codeWriter.c:34-53 | writes the file header and entry point when the assertion holds, and reports whether it held |
| CodeWriter.Writer.StackFrameStart | src/codeWriter.c:522-552 | writes the prologue, up to and excluding the first missing parameter |
| CodeWriter.Writer.SaveParameters | src/codeWriter.c:522-552 | writes the moves of the first k parameters to their frame slots, and reports whether none was missing |
| CodeWriter.Writer.SaveParameter | src/codeWriter.c:522-552 | one step of the parameter loop: the moves written so far grow by the next parameter's move |
| CodeWriter.Writer.PopParameters | src/codeWriter.c:151-200 | the pop loop writes one pop per register parameter |
| CodeWriter.Writer.StackFrameEnd | src/codeWriter.c:554-560 | writes the epilogue |
| TreeReader.ThenGen | src/treeReader.c:98-128 | after a stop nothing more is written; otherwise the code is appended and the stack effects add up |
| TreeReader.ExprGen | src/treeReader.c:134-163 | an expression's code leaves rsp and rbp alone and, finishing, pushes exactly one value |
| TreeReader.OpeGen | src/codeWriter.c:68-90 | an operator's code pops two and pushes one |
| TreeReader.LoadVarGen | src/codeWriter.c:407-430 | reading an identifier pushes one value |
| TreeReader.CallGen | src/codeWriter.c:151-200 | a call pushes its result and nothing else |
| TreeReader.ArgsGen | src/codeWriter.c:131-142 | the arguments push one value each |
| TreeReader.WriteVarGen | src/codeWriter.c:504-520 | an assignment target consumes the value |
| TreeReader.ReturnGen | src/treeReader.c:176-198 | a return leaves the stack depth as it found it |
| TreeReader.StmtGen | src/treeReader.c:98-128 | a statement leaves on the stack only what an expression statement's value leaves |
| TreeReader.SuiteGen | src/treeReader.c:98-128 | a statement list leaves on the stack the sum of its statements' leftovers |
| TreeReader.FunctionReturnsOnce | src/treeReader.c:67-79 | a compiled function ends with `ret` and has no other `ret` |
| TreeReader.FunctionRestoresStack | src/codeWriter.c:522-560 | at its `ret`, a compiled function has rsp back where it was at its label |
| TreeReader.FunctionLayout | src/treeReader.c:42-79 | a function is its label, the frame opening, the parameter moves, the body and the epilogue |
| TreeReader.ExprComputes | src/treeReader.c:134-163 | the code of a constant arithmetic expression pushes its 64-bit wrapped value |
| TreeReader.BinaryComputes | src/treeReader.c:134-163 | the same, for a binary expression from those of its operands |
| TreeReader.ArgsComputes | src/codeWriter.c:131-142 | the arguments are pushed last to first, with their values |
| TreeReader.CallPassesArguments | src/codeWriter.c:151-200 | at the call, the argument registers hold the arguments' values and the stack is as before |
| TreeReader.FunctionsSplit | src/treeReader.c:82-96 | the functions' code is the code of a prefix followed by that of the rest |
| TreeReader.FunctionsFirst | src/treeReader.c:82-96 | the functions' code starts with the first function's label |
| TreeReader.FunctionLabel | src/codeWriter.c:562-564 | a function's code starts with its label |
| TreeReader.PrologueGen | src/codeWriter.c:522-552 | the prologue starts at the function's label, prints nothing, and aborts exactly when a parameter is missing |
| TreeReader.CorpsGen | src/treeReader.c:42-56 | a prologue that aborts ends the walk there; otherwise the body's diagnostics are printed and the code ends with the epilogue and `ret` |
| TreeReader.FunctionGen | src/treeReader.c:67-79 | a function without a table aborts with nothing written; a function compiled to the end has its table and ends with the epilogue and `ret` |
| TreeReader.FunctionsGen | src/treeReader.c:82-96 | no functions write nothing; functions compiled to the end end with the last one's `ret` |
| TreeReader.ProgGen | src/treeReader.c:34-40 | a table that is not the global one aborts; otherwise the header is written first and the walk stops exactly as the functions' walk does |
| TreeReader.ProgLayout | src/treeReader.c:34-40 | a program is the header, the entry point, and then the first function's label |
| TreeReader.EmitSuiteInst | src/treeReader.c:98-128 | the statement loop writes SuiteGen's code and returns no flags |
| TreeReader.EmitCorps | src/treeReader.c:42-56 | the body writes the prologue, then the statements |
| TreeReader.EmitDeclFonct | src/treeReader.c:67-79 | a function writes its label, its body and its epilogue |
| TreeReader.EmitDeclFoncts | src/treeReader.c:82-96 | the function loop writes each function in order |
| TreeReader.EmitProg | src/treeReader.c:34-40 | the program writes the file header, then the functions |
| Table.CellSize | src/table.c:48-62 | one byte per char element, four per int element |
| Table.ContiguousAppend | src/table.c:64-80 | a cell placed where AddIntended places it keeps the cells side by side from 0 |
| Table.AddrIsPrefixSize | src/table.c:64-80 | in a table laid from 0, each cell starts at the total size of the cells before it |
| Table.CellsDisjoint | src/table.c:64-80 | in a table laid from 0 with non-negative sizes, two cells never overlap |
| Table.AddrAsWritten | src/table.c:73-77 | after the first cell the address as written is the intended one; the first cell is shifted by the end of whatever precedes the buffer |
| Table.FirstAddrAsWritten | src/table.c:73-77 | the first cell's address as written comes from the memory before the buffer, and need not be 0 |
| Table.STable.constructor | src/table.c:17-25 | ten cells, none in use |
| Table.STable.Realloc | src/table.c:32-40 | the buffer doubles and keeps its cells |
| Table.AsWrittenAppend | src/table.c:73-77 | a cell appended at the address as written keeps every cell after the first at the end of the previous one |
| Table.AsWrittenOffset | src/table.c:73-77 | as written, each cell starts at the first cell's address plus the sizes of the cells before it |
| Table.AsWrittenFromZero | src/table.c:73-77 | the layout as written is the intended one exactly when the first cell sits at 0 |
| Table.STable.Add | src/table.c:64-80 | as written: the buffer doubles when one cell is spare, and one cell is appended at the end of the cell before it, which for the first cell is the memory before the buffer |
| Table.IntendedAppend | src/table.c:73-77 | a cell placed where the intended rule puts it keeps the cells after the first contiguous, and a table that lay from 0 still does |
| Table.STable.AddIntended | src/table.c:64-80 | the add line 74 intends: the first cell at 0 and each later one at the end of the previous one, keeping a contiguous table contiguous |
| Table.STable.IsIn | src/table.c:83-90 | true exactly when a cell in use bears the name |
| Table.STable.SetEmpty | src/table.c:107-109 | no cell in use, and the buffer is kept |
| Options.InitOption | src/parser.c:49-58 | no input path, "_anonymous.asm" as output, and only the semantic flag set |
| Options.LastIndex | src/parser.c:68-85 | the last occurrence of the character, or none when it does not occur |
| Options.DefaultOutputName | src/parser.c:68-85 | the output name has no directory part and fits the buffer, and for a path short enough it ends in ".asm" |
| Options.AsmName | src/parser.c:77-82 | a file name without a slash, with ".asm" appended and cut to PATH_MAX - 1 characters, has no slash, and it keeps the ".asm" when the name is short enough |
| Options.LongCode | src/parser.c:90-96 | the character of an option with that name, or '?'; '?' exactly when no option has the name |
| Options.OptCode | src/parser.c:90-98 | one of the five option characters or '?': a short option known to "asht" gives itself, and a long one is unknown exactly when no long option has its name |
| Options.OutputOfExtension | src/parser.c:68-85 | a path of the form "dir/stem.ext" is named stem.asm |
| Options.OutputBeforeDot | src/parser.c:68-85 | a last dot inside the file name cuts the name there, and ".asm" is appended |
| Options.OutputOfPlainName | src/parser.c:68-85 | a file name without a dot keeps its whole text, and ".asm" is appended |
| Options.OutputWholeName | src/parser.c:68-85 | with no dot after the last slash, the whole file name is kept and ".asm" is appended |
| Options.LongCodes | src/parser.c:87-138 | each long option gives its short character |
| Options.ShortW | src/parser.c:87-138 | `-w` is unknown to the short-option string, although `--only-semantic` is known |
| Options.Parse | src/parser.c:87-138 | the parse stops at the first option the switch does not set, with 0 for `h` and 1 otherwise. Otherwise each flag is set exactly when its option appears, and a single positional argument gives the path and its output name |

## Left out

- The application's entry point (main.c), the lexer and parser that build the tree, and tree printing (tree.c) are not part of this model. The tree is the algebraic `Ast.Prog`.
- codegen.c, expr.c and error.c are also not part of this model. The error.h among the sources is an older revision with negative codes (`ERR_SYNTAX = -1`, ...); the flags the passes OR together (`ERR_RETURN_TYPE_VOID`, `ERR_MAIN_PARAM`, ...) are defined in a later error.h, which is not part of this model. `Errors.ErrorSet` models them as a set, which assumes one distinct bit per flag. The level bits that error.c:14-21 switches on are not modelled.
- File output: every `fprintf` becomes abstract instructions appended to `CodeWriter.Writer.out`. Comments, spacing and the NASM spelling of each instruction are not modelled.
- Diagnostics are modelled as the error kinds printed, in order. Their text, their line and column numbers, and the colouring are not modelled.
- The wording of diagnostics differs between symboltable.c and symbolTable.c. Only their kinds are modelled, so the model does not tell the two apart there.
- `print_help` prints text and then exits. `Options.Parse` returns the exit status instead.
- `getopt_long` is a library call, so `Options.Parse` takes the characters it returns as a parameter. `Options.OptCode` models its tables.
- Options.OptCode: `getopt_long` also accepts an unambiguous prefix of a long option (`--sym` for `--symtabs`), and reports an ambiguous prefix. The model matches only whole long-option names.
- Scopes.ScopeTable keeps its symbols in a `seq`, not in an `ArrayLists.ArrayList`. The growable array is modelled on its own, so the scope container is defined twice. The two are linked only by `Scopes.BufferInsertAgrees`: the place the array's binary search accepts for an absent name gives the same sequence as `Scopes.SortedInsert`. The in-place update of the symbol buffer inside a table is therefore not captured.
- `malloc`, `realloc` and `strdup` failures are not modelled. Neither is `free`, nor the freeing of tables (`ArrayList_free`, `ProgramST_free`, `STable_free`).
- `ArrayList_shrink_to_fit` and the `_Symbol_print`/`SymbolTable_print` debug printers are not modelled.
- Table.STable.Add accepts only names shorter than the 64-byte name field. `strncpy` (table.c:69) cuts a longer name to 64 bytes and leaves it without a terminating NUL, so the `strcmp` of `STable_is_in` (table.c:83-90) reads past the field; that is not modelled.
- SymbolTable.DeclSymbol computes sizes on unbounded integers. The 32-bit overflow of `length * size` for huge arrays is not modelled.
- ArrayLists.ArrayList.Resize requires `newSize <= capacity`. `ArrayList_resize` does not check this, and going past the buffer is undefined behaviour.
- `SymbolTable_get_from_func_name` is called in treeReader.c but defined nowhere. It is modelled as `FunctionSymbolTable_get_from_name` (`Lookup.FunctionIndex`).
- Reading an array element in an expression aborts the code generator: `TreeReader_Expr` has no case for it, and `CodeWriter_LoadArray` asserts on the node. `TreeReader.ExprGen` models that abort as written.
- Calls with more than six arguments: the pops and the register loads cover the first six. Where the caller leaves the extra arguments on the stack is not followed.
- Comparisons, `if`, `while` and their jumps are not modelled. The code generator's statement switch has no case for them, so they emit nothing, and the model emits nothing for them too.
- `CodeWriter.TrackAll` follows only rsp and rbp through a function. It takes the stack pointer at the label as its starting point and does not model memory contents.
- Options.ShortW: the model keeps the missing `w` in the short-option string as written. It is listed as a property, not as a finding.
- Run under 64-bit arithmetic, `idiv` with MIN / -1 faults. The `IdivStep` machine returns None for that case, and the division lemmas exclude it.

## Findings

| source | as written | input that shows it | evidently intended | confidence | as-written member | corrected member |
|---|---|---|---|---|---|---|
| src/codeWriter.c:68-90 | `/` and `%` clear rdx with `mov rdx, 0` before `idiv rcx`, so rdx:rax holds a 128-bit unsigned view of a negative dividend | `-7 / 2` | sign-extend rax into rdx (`cqo`) so that the quotient is -3 and the remainder -1, as in C | not executed | CodeWriter.DivNegativeWrong | CodeWriter.DivFixedCorrect |
| src/semantic.c:179-219 | a body without a direct `return` reports ERR_RETURN_TYPE_VOID whatever the function returns | `void f(void) {}` | report a missing return only in a function returning `char` or `int` | not executed | Semantic.VoidEmptyBodyRejected | Semantic.SuiteIntendedReturnErrs |
| src/table.c:73-77 | the address of a new cell is read from the cell at index `realLen - 1` even for the first cell, that is from `tab[-1]`; the 0 set just before is overwritten | adding the first cell to a new table | the first cell at address 0, each later cell at the end of the previous one | not executed | Table.STable.Add | Table.STable.AddIntended |
