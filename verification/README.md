# Verified models of the hasktorch tooling

Four parts of hasktorch hold behaviour that is worth a proof. This project models each of them in Dafny 4.11 and
proves what the code is for. `dafny verify dfyconfig.toml` checks everything.

**1. The header parser of the code generator.** `codegen` reads the C headers of TH and THC with a backtracking
parser on megaparsec 6.4 and prints Haskell foreign imports.

- `Megaparsec` has the combinators: a parser maps the remaining text to success or to a failure that remembers where
  it stopped, so that `<|>`, `many` and `optional` carry on only after a failure that consumed nothing.
- `Parsed`, `RenderC` and `Parse` are the data types, the C printer and the whole parser, branch by branch.
- `Spelling`, `ParseTypes`, `ParseDecl`, `DeclRoundTrip`, `ParseConst`, `ParseFile` and `PlainDecl` hold the theorems
  about printed text. A *layout* says which white space, newlines, comments, qualifiers and library markers surround a
  printed declaration; theorems hold for every layout. `ParseSound` is the converse, for all texts: what is read as a
  declaration is one, written out in some layout, with a semicolon behind it. `Simplified` is the parser without its
  dead alternatives, proved equal.
- `RenderHaskell`, `TranslationCommutes` and `RenderFunction` translate types and signatures to Haskell text.
  `Representation` compares the names with what they stand for, and `Vocabulary` lists characters and words.

The declaration round trip does not hold for all declarations, and the project proves for exactly which, in every
layout. Three families are lost, that is, fail to parse: declarations with an empty argument list; declarations with
a triple pointer as result or argument; and a concrete name such as `THTensor_` written directly in front of a lone type
name, which is read as a generic name with no argument list behind it (`PlainDecl.LostDeclaration`). All others come
back. Types `real` and `accreal` come back as those of library `ATen`, the first table entry with that spelling;
`TranslationCommutes` shows that the generated Haskell does not change by it. In the other direction, the parser also
accepts a comma behind the last argument, and no space between a type and a name; `ParseSound.FunctionSound` holds with
these, and states that nothing else is accepted.

**2. The hsc struct compiler** `bindings.dsl.h` (the files for th and thc are identical). C macros fill a table of
fields and print a `Storable` instance.

- `Markup` has the string scanners, which write NUL bytes into a local buffer, proved against a recursive rewriting.
- `Bindings` has the table as a class with arrays, and the emitter, whose methods produce a syntax tree of the emitted
  code.
- `Marshal` gives that code a meaning over byte memory, `Storable` and `Structs` the marshalling it should do, and
  `StorableLaws` states what is true of every emitted instance: coherence with overlapping union members, the round
  trip with its exact condition, the frame, and the union setters. Each type has its own set of values, size, encoding
  and decoding; a law asks of a type only what it uses. `Words` shows that words of any size meet all that is asked,
  and so does a tagged struct that overlaps a four-byte word with an array of bytes.

**3. Gradient descent**, over the real numbers, for any number n ≥ 1 of samples. `GradientDescent` models loss,
gradient and the recursion `go`; `Convergence` proves the explicit step bound; `Divergence` proves that the recursion
stops from every start and for every tolerance exactly when n times the identity less `rate` times the moment matrix
of the data is positive definite.

**4. Broadcast expansion** `expand`, `newExpand` and `expandNd` on a shared heap (`Expand`). The eight instances of the
polyfill and the CUDA template with its state argument (`raw/thc/cbits/expand_template.c`) are the same code and are
modelled once. `THLongStorage_inferSizeN`, `THLongStorage_inferExpandGeometry` and `setStorageNd` are not part of this
model's sources; `Shapes` and `Expand.SetStorageNd` write down their assumed behaviour: shapes are aligned on the right,
only size 1 stretches, and a stretched dimension has stride 0. Without any assumption about aliasing, `ExpandNd` is
proved to leave exactly the views that `AllAfter` describes. Result i reads its own operand for all views and shapes if
and only if the operand that it shows in the end, found by following the earlier results that were written over, is
that operand (`AliasingExactly`); without aliasing this always holds, and `AliasedResult` is an input where it does not.

The set of characters beyond ASCII that count as alphanumeric is left unspecified, so the theorems hold for every choice
of it. Nothing here runs the original program.

## Model

| member | source | states |
|---|---|---|
| Megaparsec.NoEolAfterSpace | codegen/src/CodeGen/Parse.hs:121 | no line end can be read after white space has been skipped, because skipping takes it |
| Parse.FunctionDecl | codegen/src/CodeGen/Parse.hs:147-154 | a declaration that is read takes at least one character, so reading files makes progress |
| Parse.Constant | codegen/src/CodeGen/Parse.hs:181-187 | a constant that is read takes at least one character |
| Vocabulary.AsciiNames | codegen/src/CodeGen/Parse.hs:163-174 | the ASCII characters of names and of comments, listed |
| Vocabulary.Libraries | codegen/src/CodeGen/Types/CLI.hs:62-66 | the supported libraries are those written TH, THC, THNN and THCUNN |
| Vocabulary.Suffixes | codegen/src/CodeGen/Parse.hs:143-144 | the six suffixes of generic names, listed |
| Parse.Skip | codegen/src/CodeGen/Parse.hs:190-194 | skipping a line fails at the end of the input only, and takes at least one character otherwise |
| Parse.ParsableTypesConsume | codegen/src/CodeGen/Parse.hs:81-92 | a type that is read takes at least one character, which is why the argument loop ends |
| ParseTypes.ParserTotal | codegen/src/CodeGen/Parse.hs:176-194 | on every non-empty text the file parser succeeds and reads all of it; on the empty text it fails |
| Spelling.TenPrefix | codegen/src/CodeGen/Render/C.hs:21-25 | equal spellings of tensor types mean equal types up to the library of real and accreal; a proper prefix is only Half before HalfTensor or HalfStorage |
| Spelling.CPrefix | codegen/src/CodeGen/Render/C.hs:28-49 | among C types only int is a proper prefix of others, the four sized signed integers |
| ParseTypes.GoAllStars | codegen/src/CodeGen/Parse.hs:56-65 | a table entry reads its own spelling with up to two stars, white space before each, and stops exactly there |
| ParseTypes.TenOrder | codegen/src/CodeGen/Types/Parsed.hs:53-107 | no entry listed before a type's own entry can take the beginning of its spelling: the order of the enumeration is right |
| ParseTypes.TenTypesOk | codegen/src/CodeGen/Parse.hs:37-41 | the table for four libraries reads every tensor type back, with its stars |
| ParseTypes.CTypesOk | codegen/src/CodeGen/Parse.hs:44-45 | the table of C types, with CInt behind the sized integers, reads every one of them back |
| ParseTypes.ParsedDepth | codegen/src/CodeGen/Parse.hs:49-68 | no input makes the parser return a pointer depth above two |
| ParseTypes.ParsableTypesOk | codegen/src/CodeGen/Parse.hs:81-92 | a printed type behind const, unsigned, struct or nothing is read back under any continuation |
| ParseTypes.TypeRoundTrip | codegen/src/CodeGen/Parse.hs:81-92 | print and parse of a type, under any continuation that cannot extend it, gives the canonical type and leaves exactly the continuation, if and only if its pointer depth is at most two |
| ParseDecl.DeadAlternatives | codegen/src/CodeGen/Parse.hs:119-135 | on all inputs the subparsers with a "white space, then newline" alternative equal those without it |
| Simplified.SameFunction | codegen/src/CodeGen/Parse.hs:147-154 | the declaration parser equals, on all inputs, the one with these alternatives deleted |
| Simplified.SameParser | codegen/src/CodeGen/Parse.hs:176-178 | the file parser equals, on all inputs, the one with these alternatives deleted |
| ParseDecl.FunctionArgsFail | codegen/src/CodeGen/Parse.hs:107-135 | an empty argument list, and one with a triple pointer anywhere, fails in every layout |
| ParseDecl.FunctionArgsOk | codegen/src/CodeGen/Parse.hs:107-135 | an argument list of any length is read back in order whatever white space, newlines, qualifiers and comments surround the arguments, and nothing behind its parenthesis is touched |
| DeclRoundTrip.GenericPrefixHit | codegen/src/CodeGen/Parse.hs:137-145 | each of the 24 generic prefixes is read back as itself, whatever follows |
| DeclRoundTrip.GenericPrefixMiss | codegen/src/CodeGen/Parse.hs:137-145 | a word that is none of them, or has no parenthesis behind it, is rejected without consuming |
| DeclRoundTrip.PrintedIsRead | codegen/src/CodeGen/Parse.hs:147-163 | every readable declaration is read back in every layout, and a block comment behind it is dropped |
| DeclRoundTrip.ClashIsLost | codegen/src/CodeGen/Parse.hs:156-160 | every declaration that clashes with a generic name fails to parse |
| DeclRoundTrip.UnlistableIsLost | codegen/src/CodeGen/Parse.hs:130-135 | every declaration without arguments, or with a triple pointer among them, fails to parse |
| DeclRoundTrip.DeepReturnIsLost | codegen/src/CodeGen/Parse.hs:147-154 | every declaration that returns a triple pointer fails to parse |
| DeclRoundTrip.NoSemicolon | codegen/src/CodeGen/Parse.hs:147-154 | a printed declaration, in any layout, whose closing parenthesis is followed by any text that does not go on with a semicolon after white space, is not read |
| DeclRoundTrip.FunctionRoundTrip | codegen/src/CodeGen/Parse.hs:147-163 | a printed declaration, in any layout, is read back, canonicalised, if and only if it has an argument, no triple pointer and no clash; otherwise it fails to parse |
| PlainDecl.PrintRoundTrip | codegen/src/CodeGen/Parse.hs:147-163 | the same for the text "ret name(args);" in front of any text, for any argument list, the empty one included, with the condition on the declaration alone |
| PlainDecl.LostDeclaration | codegen/src/CodeGen/Parse.hs:156-160 | "void THTensor_(void);" is not parsed |
| PlainDecl.TestedDeclaration | codegen/tests/CodeGen/ParseSpec.hs:348-352 | the declaration of THStorage_(elementSize) in the repository's tests is read as they expect |
| ParseSound.TypeSound | codegen/src/CodeGen/Parse.hs:81-92 | whatever is read as a type, from any text, is a modifier, the spelling of its base type and up to two stars, and the type is canonical |
| ParseSound.ListSound | codegen/src/CodeGen/Parse.hs:107-135 | whatever is read as an argument list is, in some layout, the list of exactly these arguments, not empty and without triple pointers, up to its closing parenthesis |
| ParseSound.FunctionSound | codegen/src/CodeGen/Parse.hs:147-163 | whatever is read as a declaration, from any text, is the written declaration of exactly the function that is returned, in some layout, and reading stops behind its semicolon and comment |
| ParseSound.SemicolonRequired | codegen/src/CodeGen/Parse.hs:152-153 | every text that is read as a declaration has a closing parenthesis, blanks and a semicolon, and what is left is what follows that semicolon, less a comment |
| ParseSound.CommentSound | codegen/src/CodeGen/Parse.hs:172-174 | what is dropped behind a declaration is white space and a block comment of a single line |
| ParseSound.CommentDropped | codegen/src/CodeGen/Parse.hs:172-174 | every such comment is dropped |
| ParseSound.ConstantSound | codegen/src/CodeGen/Parse.hs:181-187 | whatever is read as a constant is the word const, a type of at most two stars, a name and a semicolon, and what is left is what follows |
| ParseSound.FileSound | codegen/src/CodeGen/Parse.hs:176-194 | for every text: the declarations that the file parser returns stand in the text, in this order, each behind the end of the one before; none is invented |
| ParseConst.ConstantRoundTrip | codegen/src/CodeGen/Parse.hs:181-187 | a constant in any layout, in front of any text, is read up to its semicolon and gives no function, if its type has at most two stars; otherwise it fails to parse |
| PlainDecl.HeaderRoundTrip | codegen/src/CodeGen/Render.hs:155-156 | a header of printed declarations, one in each line, gives back exactly these declarations |
| ParseFile.ConstantFails | codegen/src/CodeGen/Parse.hs:181-187 | no printed declaration, not even one that starts with const, is taken for a constant |
| ParseFile.FunctionAcrossSpace | codegen/src/CodeGen/Parse.hs:147-154 | an attempt that runs across white space and newlines gives what the declaration behind them gives, or fails |
| ParseFile.JunkStep | codegen/src/CodeGen/Parse.hs:177-194 | one parser step on a line without a declaration loses, duplicates and invents nothing |
| ParseFile.FileConservation | codegen/src/CodeGen/Parse.hs:176-194 | from a file interleaving readable declarations with constants and with lines that contain neither, comments of any text among them, exactly these declarations come out, in order |
| RenderHaskell.RealIsLibraryFree | codegen/src/CodeGen/Parse/Cases.hs:28-75 | real and accreal translate alike for every library |
| RenderHaskell.CanonRenders | codegen/src/CodeGen/Render/Haskell.hs:25-47 | the canonical type has the same Haskell rendering |
| RenderHaskell.SameSpelling | codegen/src/CodeGen/Render/C.hs:11-49 | types with the same C spelling are equal up to the library of real and accreal |
| RenderHaskell.SpellingDecidesTranslation | codegen/src/CodeGen/Render/Haskell.hs:11-64 | types with the same C spelling have the same Haskell rendering, for every template type and category |
| TranslationCommutes.ParseThenTranslate | codegen/src/CodeGen/Render/Haskell.hs:11-64 | translating what is parsed from a printed type is translating the type, although parsing forgets a library |
| Representation.SameRepresentation | codegen/src/CodeGen/Render/Haskell.hs:50-64 | every C type is translated to a Haskell type of the same representation |
| Representation.TemplateName | codegen/src/CodeGen/Render/Haskell.hs:39-47 | a templated tensor or storage is named after the C spelling of its concrete type, THCuda included |
| Representation.Spelled | codegen/src/CodeGen/Render/C.hs:21-25 | the C spelling of each tensor type: real, accreal, or its constructor behind its library, which is THCuda for the concrete tensors of THC only |
| RenderFunction.AliasNames | codegen/src/CodeGen/Parse/Cases.hs:25-50 | the unqualified names of a library's tensor and storage for each template type |
| RenderFunction.RealNames | codegen/src/CodeGen/Parse/Cases.hs:53-75 | the unqualified Haskell names of real and accreal for each template type |
| RenderFunction.TenNameGood | codegen/src/CodeGen/Render/Haskell.hs:39-47 | the name of a tensor type has no dash and does not read as a pointer; it is empty exactly for real and accreal at GenNothing |
| RenderFunction.RendersTranslation | codegen/src/CodeGen/Render/Haskell.hs:25-36 | a rendered type is the well-bracketed text of a Haskell type of the same pointer depth, if and only if its depth is at most two and it is no pointer to a DescBuff |
| RenderFunction.RendersResult | codegen/src/CodeGen/Render/Haskell.hs:15-22 | a result is rendered as IO of the translated type, bracketed when it is a pointer |
| RenderFunction.SplitJoined | codegen/src/CodeGen/Render/Function.hs:49 | joining with arrows and cutting at arrows are inverse on texts without a dash |
| RenderFunction.SignatureComponents | codegen/src/CodeGen/Render/Function.hs:44-61 | a signature cut at its arrows is one component for each parameter, none for a sole void, and one IO result; each is the text of the translated type, which names no type only for real and accreal at GenNothing |
| RenderFunction.VoidSignature | codegen/src/CodeGen/Render/Function.hs:44-61 | a sole void argument of any name gives no parameter: the signature is the IO result alone |
| RenderFunction.ListSignature | codegen/src/CodeGen/Render/Function.hs:44-61 | every other argument list gives one component more than it has arguments; component i is the translated type of argument i, the last one the IO result |
| RenderFunction.TestedSignature | codegen/tests/CodeGen/Render/FunctionSpec.hs:18-24 | the components of the signature of sizeDesc that the repository's tests expect |
| RenderFunction.SignatureText | codegen/src/CodeGen/Render/Function.hs:44-50 | the whole signature text is the name and these components with arrows between, inside FunPtr for a function pointer |
| RenderFunction.AliasIsConst | codegen/src/CodeGen/Render/Function.hs:135-158 | the TH alias has the aliased signature behind one state pointer, so that defining it by const is well typed |
| RenderFunction.VoidAlias | codegen/src/CodeGen/Render/Function.hs:148-155 | the alias of a function with a sole void argument has the state pointer and the result |
| RenderFunction.ListAlias | codegen/src/CodeGen/Render/Function.hs:148-155 | every other alias has the state pointer, its arguments in order, and the result |
| Markup.LastWordOf | types/th/src/bindings.dsl.h:33-39 | the specification of the last word: the one that only blanks follow |
| Markup.StrTok | types/th/src/bindings.dsl.h:37 | strtok as in section 7.24.5.8 of ISO C11: finds the next blank-separated token, ends it with a NUL, or finds none |
| Markup.BcWord | types/th/src/bindings.dsl.h:33-39 | prints the last blank-separated word of every text with a non-blank, inside its buffer |
| Markup.ScanTo | types/th/src/bindings.dsl.h:60-61 | the pointer stops at the first bracket or the terminating NUL |
| Markup.Split | types/th/src/bindings.dsl.h:60-63 | the two NUL bytes leave the outside text and the name readable and the rest of the buffer untouched |
| Markup.RewriteMeans | types/th/src/bindings.dsl.h:52-68 | the recursive rewriting keeps text outside brackets and replaces every bracketed name by its constructor, also when the last bracket is open |
| Markup.RewriteOfAny | types/th/src/bindings.dsl.h:52-68 | every text falls into such pieces; its rewriting is theirs, and is defined if and only if every bracketed name is empty or contains a non-blank |
| Markup.RewritePlain | types/th/src/bindings.dsl.h:52-68 | text without an opening bracket is kept as it is |
| Markup.RewriteBracket | types/th/src/bindings.dsl.h:52-68 | the first bracketed name, of any words, becomes C' and its last word between the text before it and the rewriting of the rest |
| Markup.RewriteEmpty | types/th/src/bindings.dsl.h:52-68 | an empty pair of brackets is dropped |
| Markup.RewriteOpen | types/th/src/bindings.dsl.h:52-68 | a name whose bracket is never closed becomes its constructor at the end of the text |
| Markup.BcTypemarkup | types/th/src/bindings.dsl.h:52-68 | the destructive scan prints exactly that rewriting of every text whose bracketed names are empty or contain a non-blank |
| Markup.BcConid | types/th/src/bindings.dsl.h:72 | prints C' and the last word of a text with a non-blank |
| Bindings.FieldTable.constructor | types/th/src/bindings.dsl.h:224-228 | the table starts empty |
| Bindings.FieldTable.StartType | types/th/src/bindings.dsl.h:236-244 | forgets the fields of the previous struct |
| Bindings.FieldTable.RoomMeans | types/th/src/bindings.dsl.h:224-228 | the table has room for 500 fields with texts of up to 999 characters |
| Bindings.FieldTable.BasicField | types/th/src/bindings.dsl.h:246-254 | appends one field with its offset and flags and no array size, and keeps the others |
| Bindings.FieldTable.AddField | types/th/src/bindings.dsl.h:256-257 | appends a scalar field |
| Bindings.FieldTable.AddUnionField | types/th/src/bindings.dsl.h:259-260 | appends a scalar union member |
| Bindings.FieldTable.AddFlexibleArrayMember | types/th/src/bindings.dsl.h:262-263 | appends a flexible array member |
| Bindings.FieldTable.AddArrayField | types/th/src/bindings.dsl.h:265-267 | appends an array field with its size in bytes |
| Bindings.FieldTable.AddUnionArrayField | types/th/src/bindings.dsl.h:269-271 | appends an array member of a union with its size in bytes |
| Bindings.FieldTable.EmitDecl | types/th/src/bindings.dsl.h:273-289 | the record declaration has the fields of the table in order, lists for arrays, and marked-up types |
| Bindings.FieldTable.EmitPointers | types/th/src/bindings.dsl.h:298-305 | one offset function for each field |
| Bindings.FieldTable.EmitTaken | types/th/src/bindings.dsl.h:331-338 | a setter takes over the union fields, in order, and no others |
| Bindings.FieldTable.EmitSetter | types/th/src/bindings.dsl.h:308-338 | the setter of one union field |
| Bindings.FieldTable.EmitSetters | types/th/src/bindings.dsl.h:306-339 | one setter for each union field, in order |
| Bindings.FieldTable.EmitBinds | types/th/src/bindings.dsl.h:344-361 | the statements of peek, one for each field |
| Bindings.FieldTable.EmitVars | types/th/src/bindings.dsl.h:362-366 | the variables behind the constructor |
| Bindings.FieldTable.EmitStmts | types/th/src/bindings.dsl.h:368-386 | the statements of poke, one for each field |
| Bindings.FieldTable.StopType | types/th/src/bindings.dsl.h:273-387 | the emitted instance is the compilation of the table with marked-up types, under the constructor C' with the last word of the C type, with the given size and alignment, and one record field for each table row |
| Storable.PeekPoked | types/th/src/bindings.dsl.h:355-379 | poking values of a type and peeking at least as many gives them back, followed by what the memory held |
| Storable.PokePeeked | types/th/src/bindings.dsl.h:355-379 | poking an array peeked elsewhere copies its bytes and no others |
| Structs.PokeCopies | types/th/src/bindings.dsl.h:344-386 | poking a record peeked elsewhere copies the bytes of all fields and no others, overlaps included |
| Structs.PeekPokedFields | types/th/src/bindings.dsl.h:344-386 | with disjoint fields every field reads back the value of its type that was written, cut off or completed from memory |
| Structs.UpdateKeeps | types/th/src/bindings.dsl.h:306-339 | writing a union member leaves a field that nothing overlaps, and that holds a value of its type, as it was poked |
| Marshal.SettersAre | types/th/src/bindings.dsl.h:306-308 | the emitted setters are those of the union fields, all of them and no others |
| Marshal.CompiledPeek | types/th/src/bindings.dsl.h:344-364 | the emitted peek type-checks and reads every field, for all tables and types of positive size |
| Marshal.CompiledPoke | types/th/src/bindings.dsl.h:365-386 | the emitted poke type-checks and writes every field in order, for all tables and types of positive size |
| Marshal.CompiledSetter | types/th/src/bindings.dsl.h:306-339 | the emitted setter pokes, writes the member, peeks and takes over the union fields, for all tables and types of positive size |
| StorableLaws.PeekThenPoke | types/th/src/bindings.dsl.h:344-386 | peek in one memory, then poke into another: the two agree on the bytes of every field and peek to the same record, even when fields of different types and sizes overlap |
| StorableLaws.PeekIsTyped | types/th/src/bindings.dsl.h:344-364 | peek returns values of the field types, lists for the arrays |
| StorableLaws.PokeThenPeek | types/th/src/bindings.dsl.h:344-386 | with disjoint fields poke, then peek returns a record of values of the field types if and only if every list has the length of its array and every flexible array is empty |
| StorableLaws.PokeThenPeekField | types/th/src/bindings.dsl.h:344-386 | with disjoint fields each comes back: scalars as they are, of a list as many elements as the array holds, the ones behind its end from the bytes that the memory held there before, and nothing of a flexible array |
| StorableLaws.ApartIsDisjoint | types/th/src/bindings.dsl.h:246-254 | fields whose bytes in the C struct are apart are disjoint, whatever their values |
| StorableLaws.PokeStaysInside | types/th/src/bindings.dsl.h:340-386 | poke writes no byte outside the emitted size when the fields lie inside the size of the type and none is a flexible array |
| StorableLaws.SetterStaysInside | types/th/src/bindings.dsl.h:306-343 | nor do the two writes of a setter, in the memory of the emitted size that alloca gives it |
| StorableLaws.SetterReads | types/th/src/bindings.dsl.h:306-339 | a setter keeps every field outside the union, and every field that nothing overlaps, and its own field reads back the new value |
| StorableLaws.SetterIsStable | types/th/src/bindings.dsl.h:306-339 | what a setter returns is fixed by poke, then peek, in any memory, when union members have no padding and nothing overlaps the other fields |
| StorableLaws.SetterFor | types/th/src/bindings.dsl.h:306-308 | each union field has exactly one setter and other fields have none |
| StorableLaws.PointerReads | types/th/src/bindings.dsl.h:298-305 | the offset function of a field, scalar or array, leads to what peek reads for it, element by element |
| GradientDescent.LossOfOne | examples/gradient-descent/GradientDescent.hs:36-39 | the loss of one sample is the square of its error |
| GradientDescent.LossAdds | examples/gradient-descent/GradientDescent.hs:36-39 | the loss of joined samples is the sum of the losses |
| GradientDescent.LossIsZero | examples/gradient-descent/GradientDescent.hs:36-39 | the loss is zero exactly where every sample is met |
| GradientDescent.LossExpansion | examples/gradient-descent/GradientDescent.hs:36-53 | loss(p+v) = loss(p) + n <gradient(p), v> + sum of (v.x_i)^2, exactly |
| Convergence.CurvatureIs | examples/gradient-descent/GradientDescent.hs:68-75 | the curvature, entry by entry: n times the identity less rate times the moments of the data |
| Convergence.StepLoss | examples/gradient-descent/GradientDescent.hs:68-75 | one step lowers the loss by exactly rate times the curvature form of the gradient |
| Convergence.StepGradient | examples/gradient-descent/GradientDescent.hs:68-75 | the next gradient as a linear image of this one |
| Convergence.GoRecordsTrajectory | examples/gradient-descent/GradientDescent.hs:64-75 | the history is the true trajectory, newest first, and go stops at the first small gradient and not before |
| Convergence.ContinuingStep | examples/gradient-descent/GradientDescent.hs:68-75 | a step that is not the last lowers the loss by a fixed amount |
| Convergence.LossesDecrease | examples/gradient-descent/GradientDescent.hs:64-75 | along the trajectory the losses strictly decrease, and adjacent entries differ by one gradient step |
| Convergence.HaltsWithin | examples/gradient-descent/GradientDescent.hs:64-75 | with curvature at least mu the recursion stops after at most loss / drop entries, from any accumulator |
| Convergence.StepBound | examples/gradient-descent/GradientDescent.hs:64-75 | with rate S <= n/2 the recursion stops and records at most 4 loss(p0) / (rate n eps^2) steps |
| Divergence.FormDecreases | examples/gradient-descent/GradientDescent.hs:68-75 | the curvature form of the gradient never increases, so a negative one stays negative |
| Divergence.NegativeNeverStops | examples/gradient-descent/GradientDescent.hs:64-75 | from a gradient of sufficiently negative curvature form the recursion never stops |
| Divergence.KernelNeverStops | examples/gradient-descent/GradientDescent.hs:64-75 | along a kernel of the curvature the gradient only changes sign, and the recursion never stops |
| Divergence.RunsForEver | examples/gradient-descent/GradientDescent.hs:64-75 | without positive definite curvature there are a start and a tolerance with which the recursion never stops |
| Divergence.HaltsExactly | examples/gradient-descent/GradientDescent.hs:64-75 | the recursion stops from every start and for every tolerance if and only if the curvature is positive definite |
| Shapes.BroadcastMeans | raw/th/cbits/expand_polyfill.c:20-30 | a shape broadcasts to one whose last sizes are its own, except where it has 1 |
| Shapes.InferSizeNIsJoin | raw/th/cbits/expand_polyfill.c:49-56 | size inference, as assumed, succeeds if and only if the shapes have a common broadcast, and then gives the least |
| Shapes.ExpandReads | raw/th/cbits/expand_polyfill.c:20-30 | an expanded view has the target shape and reads at every index the element of the original |
| Shapes.ExpandTwice | raw/th/cbits/expand_polyfill.c:20-30 | expanding an expanded view to the same shape changes nothing |
| Expand.SetStorageNd | raw/th/cbits/expand_polyfill.c:29-30 | assumed: overwrites the view of its tensor and nothing else |
| Expand.DoExpand | raw/th/cbits/expand_polyfill.c:11-33 | which error is raised for which operand; on success the result shows the stretched operand; no other tracked view changes; both geometry blocks are freed |
| Expand.NewExpand | raw/th/cbits/expand_polyfill.c:5-9 | the same for a fresh result |
| Expand.FirstEmpty | raw/th/cbits/expand_polyfill.c:37-39 | the argument error names the first operand without dimensions |
| Expand.CollectShapes | raw/th/cbits/expand_polyfill.c:41-47 | the two arrays hold the sizes of the operands, each as it is |
| Expand.ExpandAll | raw/th/cbits/expand_polyfill.c:64-66 | no inner expansion can fail, whatever the aliasing, and the views end as described by their origins |
| Expand.InferAndExpand | raw/th/cbits/expand_polyfill.c:49-69 | sizes is allocated once and freed once on both paths; a size error changes no view |
| Expand.ExpandNd | raw/th/cbits/expand_polyfill.c:36-69 | all or nothing: without an empty operand it succeeds if and only if some shape exists to which every operand broadcasts; then all results have one common size, the least such shape; a result that shows its own operand reads it at every index, operands that are no results keep their views, and on failure no view changes |
| Expand.OperandNow | raw/th/cbits/expand_polyfill.c:64-66 | an operand that is an earlier result still expands to the common shape |
| Expand.AliasingExactly | raw/th/cbits/expand_polyfill.c:64-66 | result i has the common shape and reads its own operand's original elements, for all views and shapes, if and only if the operand it shows in the end is that operand |
| Expand.ResultsRead | raw/th/cbits/expand_polyfill.c:64-66 | with distinct results, none of which is an operand still to be read, this holds for every result |
| Expand.OperandKept | raw/th/cbits/expand_polyfill.c:64-66 | an operand that is no result keeps its view |
| Expand.AliasedResult | raw/th/cbits/expand_polyfill.c:64-66 | an input where it fails: the first result is the second operand, and the second result reads another element |

## Left out

- Element values of tensors: expand copies none, so the theorems say which element of which storage is read.
- Positions, hints and messages of parse errors; only the point of failure matters to the combinators.
- Header lines that begin with an identifier but hold no declaration, such as typedefs: whether the parser finds
  something in them depends on the text; totality and `ParseSound.FileSound` hold for them, conservation is not stated.
- `inlineComment` in Parse.hs, which nothing uses, and the neural network types, which are commented out.
- Reading and writing files in `codegen/src/CodeGen/Render.hs`, command line options, debug output.
- Generated Haskell and C names (`mkHsname`, `mkCname`, and the field, pointer and setter names built by `bc_glue`):
  fields of a struct are identified by position, and names are not claimed to be unique.
- The macros of `bindings.dsl.h` for numbers, patterns, callbacks and imports, which print fixed text around
  `bc_typemarkup` and `bc_conid`; `deriving` clauses.
- The layout of C structs: offsets, sizes and alignments are parameters, and the table's capacities of 500 fields and
  1000 characters are preconditions, as the macros do not check them.
- StorableLaws.PeekThenPoke: does not cover types with padding bytes or several encodings of one value, such as CBool,
  for which the bytes need not agree; the other laws need this of the union members that a setter updates only.
- Floating point: gradient descent is modelled over the reals. The recursion `go` gets a number of rounds as fuel;
  `None` says that it is still running then, and stopping means stopping for some fuel.
- Data generation, seeds and `runN` of the gradient descent example.
- Reference counts of storages in `setStorageNd`, which belong to code that is not part of this model; error reporting
  by `THError` and `THArgCheck` is modelled as ending the call.
- Sizes of -1 in a target shape, which the original `inferExpandGeometry` may accept; sizes are natural numbers here.
- Foreign import modules, backpack signatures, tensor type classes and finalizers, which are declarations or thin
  wrappers; `examples/lasso`, which its Makefile marks as broken.
