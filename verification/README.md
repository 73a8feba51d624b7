# Verified model of the Pawn parser

This project models, in Dafny, the parts of a Go lexer, macro preprocessor and syntax-tree
parser for the Pawn language that carry the most state, and proves what they promise. Each
module stands for one of the program's files or mechanisms. Code that works step by step is
modelled by methods and classes in the same form, proved against functions that say what is
computed; the laws are lemmas about those functions, for every input.

Source bytes are `char`s; nothing depends on how many values a byte has. Integers are
unbounded, where the program uses 32-bit offsets that it assumes to fit; the 64-bit
arithmetic of `#if` conditions wraps explicitly. The declaration tracker, literal decoding,
hashes, include resolvers and tokenizers of replacement text are parameters: the results
hold for all of them.

## What is proved

- **Macro expansion** (`PatternMatch`, `PatternLanguage`, `PatternInput`, `MacroBody`,
  `BodyLanguage`, `DepthOrder`, `Expansion`, `ArgumentLists`, `Rescan`, `ExpansionEngine`,
  `Replacement`, `PatternReplacement`). Rescanning ends for every macro
  table and token list, although a splice may insert more than it removes: each step lowers
  a vector of token counts by depth in a lexicographic order, which is well-founded. The
  pattern matcher accepts exactly the instances of a pattern, and gives back the captures
  an instance was built from; where semicolons are optional it is said exactly which other
  lines match. Collected arguments are exactly the stretches between the commas outside all
  brackets. Consumed tokens conserve spelling, and the segments of a substituted body cover
  it. One step of rescanning is said in full: a call becomes the body with its arguments for
  the parameters, and a text that is an instance of a pattern the body with the pattern's
  fillings; what is hidden or repeated stays.
- **The tree builder** (`Arena`, `NodeLists`, `CompactBuilder`, `SideTables`, `SinkHistory`,
  `SinkState`, `CompactSink`, `Reachability`, `ErrorTables`, `CompactTree`). Child and field
  lists that start inline and spill into shared blocks are plain lists, never overlapping. Any
  history of building, with attempts given up anywhere in it, leaves the rows of a plain table
  (`CompactSink.Sink.Perform`); the tree finished from it, compacted in place, is the part of
  that table reachable from its root (`CompactSink.Build`), and is the same to the last index
  as if nothing had been tried and given up (`CompactSink.AttemptsLeaveNoTrace`).
- **Two readings of expressions** (`AngleClose`, `Pratt`, `PrattLanguage`, `Printing`,
  `OperatorTables`, `ConditionEval`, `ConditionForms`, `ExpressionAgreement`). The precedence-climbing parser returns exactly
  the trees whose operators bind as tightly as their places demand; printing with only the
  needed parentheses and parsing are inverse. The `#if` evaluator ends for all tables, and
  computes the value of the tree the parser builds; what names, `defined`, `sizeof` and each
  operator are worth is said apart.
- **Conditionals and includes** (`Conditionals`, `Selection`, `Frames`, `LineCuts`,
  `MacroArguments`, `TakenLines`, `MacroUses`, `TakenDirectives`, `Includes`, `IncludeOrigins`).
  A plain line is processed if and only if every group around it chose the arm it stands in
  (`Selection.SelectedExactly`). The loop over a file's tokens does what its lines
  say, and the stack of frames selects the lines a recursive reading of the `#if` tree selects,
  if no macro use takes a conditional directive; every directive is handled if and only if none
  is taken. A condition on the lines alone says when none is, whatever the macros are
  (`MacroUses.ReadFile`). Include processing ends for every resolver, at bounded depth, with no file included more
  than twice at a time; the limit does not count the file the run starts from, which can be read
  three times at once (`Includes.FirstFileThrice`).
- **Lexing** (`Scanning`, `Lexing`, `LineMaps`, `Spellings`, `TokenShapes`, `Relexing`). Tokens and trivia
  tile the source with the right positions, so nothing is lost; the fast builder agrees
  with the full one; operators are read by maximal munch; literals, comments and
  numbers are read exactly where their texts stand; every token's text lexes to itself.
- **Incremental and compact forms** (`TreeCopy`, `TreeSplice`, `Shifts`,
  `DeclarationIndex`, `CompactTokens`). Trees with sharing or cycles are copied one for one;
  offsets and ranges survive an edit under exact conditions; a rebased declaration index
  is the fresh one under an exact condition; expanding compact tokens undoes compacting.
- **Lookups and recovery** (`AngleClose`, `DiagnosticCoverage`, `Recovery`). Precomputed
  tables answer as the scans they replace; skipping a stuck item always moves on.

## Where the code does not do what it is for

- A macro use reads on over the end of its line and never looks for a directive. The arguments
  of a function-like macro (preprocess/expand.go:190-231) go on to their closing parenthesis:
  in `TakenDirectives.SkippedIsWritten` a line inside `#if 0` is written, and in
  `TakenDirectives.EndIfIsTaken` an `#endif` that is there is reported missing. A pattern is
  matched against all the lines joined to its own (preprocess/pattern.go:298-322), and a line
  is joined to the next if its text ends in a backslash, blanks skipped, even inside a comment
  that ends with the line (preprocess/pattern.go:393-415): in `TakenDirectives.IfIsTaken` an
  `#if` behind such a comment is taken. All conditional directives are handled if and only if no
  active line takes one (`Conditionals.HandledIfTidy`); then the stack reads the tree
  (`Conditionals.FileIsTree`). A caller can see it in the lines (`TakenLines.ClosedMeans`,
  `TakenLines.ClosedIsTidy`): the arguments behind each parenthesis of a line of text close in
  front of the next conditional directive, and no directive stands behind a line of text that
  ends in a backslash. Over everything that takes lines in these two ways, that is exact where
  a conditional still follows (`TakenLines.TidyExactly`).
- A `#` alone on its line takes the `#` of the next line for its keyword, so that this
  directive is not handled (preprocess/directives.go:42-55, `Frames.LoneHashTakesDirective`).
- `spliceCompactTree` (reparse.go:150) compares a position among all root children with a
  count of declarations. With the position its caller passes, the changed declaration is
  replaced if and only if every root child before it is a top-level declaration
  (`TreeSplice.SpliceDeclaration`); otherwise the old one stays, with success reported, as in
  `TreeSplice.NothingReplaced`.
- `RebaseDeclarationIndex` (declaration_index.go:57-87) keeps the fingerprints of the
  declarations outside the edit. An edit inside one declaration can still change the text of
  the next: turning `new a; main() {}` into `new a; stock main() {}` replaces only the
  semicolon, and the old fingerprint of `main` is kept (`DeclarationIndex.RebaseKeepsStale`).
  The result is the fresh index if and only if the other declarations hash as before and the
  declarations are in order (`DeclarationIndex.RebaseIsBuild`); the parser reads them one
  behind the other, so only the first condition can fail.
- `shiftedStart` and `shiftedEnd` (rebase.go:101-121) turn an empty range at an insertion
  point inside out, and no other range (`Shifts.RangeStaysRange`,
  `Shifts.InsertionTurnsEmptyRange`).

## Model

| member | source | states |
|---|---|---|
| `PatternMatch.SkipPawnQuoted` | preprocess/pattern.go:101-123 | walks over a quoted text, packed or not, to behind its closing quote, or to the end where it is missing |
| `PatternMatch.SkipPawnGroup` | preprocess/pattern.go:125-161 | walks over a bracket group with a stack of closers, quoted texts opaque |
| `PatternMatch.MatchPawnPattern` | preprocess/pattern.go:22-99 | the whole matcher, proved equal to the recursive definition its laws are about |
| `PatternMatch.MatchNext` | preprocess/pattern.go:34-90 | one round of the matching loop: a capture up to its delimiter, a literal with blanks before it, or a soft semicolon |
| `PatternMatch.ScanCapture` | preprocess/pattern.go:44-55 | a capture ends at the first delimiter outside quotes and groups |
| `PatternLanguage.QuoteComplete` | preprocess/pattern.go:101-123 | the end of a quoted text is found behind any well-formed body |
| `PatternLanguage.QuoteSound` | preprocess/pattern.go:101-123 | and what was read up to it is a well-formed body |
| `PatternLanguage.GroupComplete` | preprocess/pattern.go:125-161 | a balanced text and its closer pop exactly one bracket |
| `PatternLanguage.GroupSound` | preprocess/pattern.go:125-161 | a group that is closed holds a balanced text |
| `PatternLanguage.GroupSkipped` | preprocess/pattern.go:125-161 | skipping a balanced group ends at its length, whatever follows it |
| `PatternLanguage.BracketsSkipped` | preprocess/pattern.go:125-161 | so a parenthesis, a bracket and a brace are each closed by their like |
| `PatternLanguage.CaptureComplete` | preprocess/pattern.go:44-64 | a balanced text without the delimiter at top level is captured whole |
| `PatternLanguage.CaptureSound` | preprocess/pattern.go:44-64 | and every capture that ends at its delimiter is such a text |
| `PatternLanguage.MatchComplete` | preprocess/pattern.go:22-99 | an instance of the rest of a pattern is matched to its end |
| `PatternLanguage.MatchSound` | preprocess/pattern.go:22-99 | a match of the rest of a pattern is an instance, or ended by the line |
| `PatternLanguage.MatchIffInstance` | preprocess/pattern.go:22-99 | with mandatory semicolons, a text matches if and only if it is an instance of the pattern |
| `PatternLanguage.MatchIsInstanceOrLineEnd` | preprocess/pattern.go:22-99 | without them a text matches if and only if it is an instance, or one up to the last semicolon with only blanks behind it, or one up to a last capture with no semicolon at the top level behind it |
| `PatternLanguage.RunsToEnd` | preprocess/pattern.go:44-64 | a capture runs to the end if and only if no balanced text leads to a delimiter: there is none, or an open quote or group holds it |
| `PatternLanguage.ShortMatches` | preprocess/pattern.go:58-77 | such a line is matched to its end, and the last capture holds all of the rest |
| `PatternLanguage.InstanceMatches` | preprocess/pattern.go:22-99 | an instance is matched to exactly its end, with exactly its captures |
| `PatternLanguage.CapturesRoundTrip` | preprocess/pattern.go:22-99 | instantiate, then match: with distinct labels each capture comes back as the text it was filled with |
| `PatternInput.MakePatternTokenInput` | preprocess/pattern.go:244-263 | the text a run of tokens shows to the matcher, cut at the end of its line |
| `PatternInput.ConsumedTokens` | preprocess/pattern.go:265-282 | which tokens a matched prefix consumes, the split in the last one, and its consumed trivia |
| `PatternInput.InputDescribes` | preprocess/pattern.go:244-263 | the offsets recorded for each token are those of its text and trivia in the shown text |
| `PatternInput.ShownToLineEnd` | preprocess/pattern.go:244-263 | every token is shown up to the first with a line break behind it, and none beyond |
| `PatternInput.SpellingConserved` | preprocess/pattern.go:244-282 | the consumed tokens spell the matched prefix, then the split-off suffix, then the kept trivia |
| `MacroBody.SubstituteMacroBody` | preprocess/pattern.go:163-215 | substitutes captures outside quotes; the segments are non-empty, contiguous, cover the output and spell their sources |
| `MacroBody.FlushAndReplace` | preprocess/pattern.go:200-211 | a parameter closes the literal stretch before it and adds its own segment |
| `MacroBody.QuotedUnchanged` | preprocess/pattern.go:163-215 | quoted text is copied as it stands |
| `MacroBody.NothingCaptured` | preprocess/pattern.go:163-215 | a body none of whose parameters was captured is copied as it stands |
| `BodyLanguage.SubstitutesExactly` | preprocess/pattern.go:163-215 | every body is a list of characters, quoted texts and parameters, and substituting leaves these as they stand but for parameters, which become the capture with their digit, if it can be used |
| `BodyLanguage.InstanceSubstituted` | preprocess/pattern.go:22-215 | match an instance of a pattern, then substitute: each parameter of the body becomes the text that filled the pattern parameter with the same digit |
| `Expansion.PasteAdjacentAlphanum` | preprocess/expand.go:400-427 | when two adjacent words are pasted, and the token they become |
| `Expansion.CollectArgsSlice` | preprocess/expand.go:522-558 | splits macro arguments at top-level commas up to the closing parenthesis |
| `ArgumentLists.CollectsExactly` | preprocess/expand.go:522-558 | collecting finds these arguments and this end if and only if they, each with its brackets closed and no comma outside them, stand there with single commas between them in front of a parenthesis |
| `ArgumentLists.ArgumentsHandedOn` | preprocess/expand.go:233-262 | a macro whose body names its parameters in order hands on the same arguments: substituting and collecting again gives them back |
| `ArgumentLists.NothingSubstituted` | preprocess/expand.go:233-262 | a body that names no parameter is copied as it stands |
| `Expansion.SubstituteParams` | preprocess/expand.go:233-262 | replaces positional parameters in a macro body by the argument tokens |
| `Expansion.ConsumedInBounds` | preprocess/pattern.go:417-440 | a matched prefix consumes at least the macro name and stays inside the token list |
| `DepthOrder.AllTerminate` | preprocess/expand.go:265-376 | the order of depth counts is well-founded: no vector descends forever |
| `DepthOrder.SmallerAt` | preprocess/expand.go:265-376 | fewer tokens at one depth and no more at any smaller one is a step down in the order |
| `Rescan.SpliceDescends` | preprocess/expand.go:494-500 | a splice of any number of deeper tokens lowers the measure, whatever it consumes |
| `Rescan.PasteDescends` | preprocess/expand.go:400-427 | a paste keeps the larger depth and loses one token |
| `Rescan.StepDescends` | preprocess/expand.go:277-375 | every emit, paste and splice step lowers the measure and makes no token deeper than the limit |
| `Rescan.ExpansionTerminates` | preprocess/expand.go:265-376 | the loop halts for every macro table, tokenizer and token list |
| `Rescan.DepthStaysBounded` | preprocess/expand.go:347-367 | no queued token ever passes MaxExpansionDepth, unless it came in deeper |
| `Rescan.RunKeepsOutput` | preprocess/expand.go:33-80 | in every reachable state output tokens are within the limit and mark their own spelling in the buffer |
| `Rescan.NoMacrosNoChange` | preprocess/expand.go:265-376 | with no macro defined, the untruncated output spells the input, pastes included |
| `Rescan.TruncationIsFinal` | preprocess/expand.go:33-80 | output that was cut short stays cut short |
| `Rescan.PasteKeepsText` | preprocess/expand.go:400-427 | pasting changes no text |
| `Replacement.ParamIndexIs` | preprocess/macro.go:138-154 | the number of a parameter is its digits read as a decimal number, and there is none otherwise |
| `Replacement.BodyBecomes` | preprocess/expand.go:233-262 | token by token, a body parameter becomes its argument, or nothing where there is none, and any other token stays |
| `Replacement.CallReplaced` | preprocess/expand.go:298-370 | a call, neither hidden nor repeated, is replaced by the macro body with arguments for parameters, one level deeper, marked, with the trivia around the call |
| `Replacement.RepeatedPassed` | preprocess/expand.go:319-326 | a use that replaced the same text before is passed on as it stands |
| `Replacement.HiddenPassed` | preprocess/expand.go:298-300 | so is a name that is hidden in its token, or that names no macro |
| `Replacement.OthersPassed` | preprocess/expand.go:297-300 | so is a token that starts with no word |
| `Replacement.TooDeepEnds` | preprocess/expand.go:346-352 | at the depth limit nothing is replaced and output ends |
| `Replacement.TouchingPasted` | preprocess/expand.go:292-297 | two tokens that touch and make a word become one in the place of both, hidden what is hidden in either |
| `Replacement.PastedTouch` | preprocess/expand.go:400-427 | and no others are pasted |
| `Replacement.DefinedPassed` | preprocess/expand.go:277-291 | in a condition `defined`, its parenthesis and the name asked for are written, the name unexpanded |
| `Replacement.Writes` | preprocess/expand.go:33-69 | a token is written behind one blank, until the limit is reached |
| `Replacement.EntersRaised` | preprocess/expand.go:266-271 | tokens enter hidden what the run hides, and no less deep than it |
| `PatternReplacement.InstanceReplaced` | preprocess/pattern.go:417-440 | where the shown text is an instance of a macro pattern, the tokens it takes up are replaced by the tokenized body with the pattern fillings for its parameters; what is cut off the last token stays as a token |
| `ExpansionEngine.Engine.AppendOut` | preprocess/expand.go:33-69 | emits a token into the token list and the text buffer, or stops at the output limit |
| `ExpansionEngine.Engine.ExpandPatternSlice` | preprocess/pattern.go:417-440 | matches a pattern macro against the live list and makes its replacement tokens |
| `ExpansionEngine.Engine.FindUse` | preprocess/expand.go:298-326 | which macro use starts at a token: hidden names, repeated signatures and unmatched forms are none |
| `ExpansionEngine.Engine.PassDefined` | preprocess/expand.go:277-291 | in condition mode `defined` and its name are passed through unexpanded |
| `ExpansionEngine.Engine.ApplyUse` | preprocess/expand.go:327-370 | splices a replacement in, one level deeper, or reports the depth limit and stops |
| `ExpansionEngine.Engine.ExpandRun` | preprocess/expand.go:265-376 | the loop ends, in the halted state of the step function |
| `ExpansionEngine.RunFromNothing` | preprocess/expand.go:265-376 | a fresh run: output in order, and nothing lost without macros |
| `Arena.AllocIsFresh` | compact_sink.go:69-81 | a new window overlaps no window in use |
| `Arena.GrowKeeps` | compact_sink.go:83-90 | growing moves a window with its items and leaves every other window alone |
| `Arena.AppendKeeps` | compact_sink.go:83-127 | appending adds one item to a window and changes no other |
| `Arena.RewindRestores` | compact_sink.go:92-140 | rewinding gives back exactly the handed-out cells of the mark |
| `NodeLists.AddNodeKeeps` | compact_sink.go:169-199 | a new node has an empty list and changes no other |
| `NodeLists.AddKeeps` | compact_sink.go:436-491 | adding appends to one node list and to no other, inline, at the spill, and after it |
| `NodeLists.SetKeeps` | compact_sink.go:416-434 | setting replaces one node list and no other |
| `NodeLists.RewindKeeps` | compact_sink.go:493-522 | rewinding to a mark gives back every list as it was, if only newer nodes were changed |
| `NodeLists.Perform` | compact_sink.go:436-522 | any history of additions, replacements and nested attempts does what it does to plain lists |
| `NodeLists.AttemptLeavesNoTrace` | compact_sink.go:493-522 | an attempt that is rewound leaves no trace, whatever was built in it |
| `CompactBuilder.ListBuilder.AllocSlice` | compact_sink.go:69-81 | cuts a window from the last block, or from a new one of the next size |
| `CompactBuilder.ListBuilder.AppendCell` | compact_sink.go:83-127 | appends to a window in its block, in place, or moves it to a larger one |
| `CompactBuilder.ListBuilder.NewNode` | compact_sink.go:178 | the next id, with an empty list |
| `CompactBuilder.ListBuilder.AddItem` | compact_sink.go:440-454 | appends one entry to one list, in the shared blocks, and to no other |
| `CompactBuilder.ListBuilder.SetItems` | compact_sink.go:417-428 | replaces one list, in the shared blocks, and no other; the total count follows |
| `CompactBuilder.ListBuilder.Items` | compact_sink.go:282-317 | reads a list from its record or its window |
| `CompactBuilder.ListBuilder.TakeMark` | compact_sink.go:493-505 | the lengths to go back to |
| `CompactBuilder.ListBuilder.RewindTo` | compact_sink.go:507-522 | restores all lists, the counts and the free space of the mark |
| `Reachability.MarkReachable` | compact_sink.go:584-600 | the explicit stack marks exactly the nodes reachable by child edges |
| `Reachability.ReachableNodes` | compact_sink.go:584-612 | kept nodes are numbered in order, and the counts are what the tree will hold |
| `Reachability.NumberIncreasing` | compact_sink.go:584-612 | numbers grow strictly with ids and never run ahead of them |
| `Reachability.NumberDense` | compact_sink.go:584-612 | every number up to the count is in use |
| `CompactTree.WriteChildren` | compact_sink.go:551-556 | a child list, renamed, fills its window and nothing before it |
| `CompactTree.WriteFields` | compact_sink.go:558-565 | the surviving fields, renamed, fill their window and nothing before it |
| `CompactTree.MoveOne` | compact_sink.go:530-582 | moving a record down destroys none that is still to be read |
| `CompactTree.BuildTree` | compact_sink.go:530-582 | the finished tree, built in place, is the reachable part under its renumbering, with the error data of that part in its error table |
| `CompactTree.TreeIsIsomorphic` | compact_sink.go:530-582 | the root is the renumbered root; each reachable node has a tree node with its data, its children in order and its surviving fields, renamed to nodes of the tree |
| `CompactTree.TreeNodeHasSource` | compact_sink.go:530-582 | each tree node comes from exactly one reachable node |
| `CompactTree.PartIsUnique` | compact_sink.go:530-582 | there is only one such tree, to the last index of its three arrays |
| `ErrorTables.ErrorIsFound` | compact_sink.go:566-573 | the error data of each kept node are in the table, its expected tokens in their window |
| `ErrorTables.ErrorHasNode` | compact_sink.go:566-573 | each entry of the table is the error of one kept node |
| `ErrorTables.ErrorsInOrder` | compact_sink.go:566-573 | entries are in node order, so that no node has two |
| `SideTables.PutKeeps` | compact_sink.go:231-263 | an entry given to one node is given to no other |
| `SideTables.CutBack` | compact_sink.go:507-514 | cutting a side table back restores it, if only new nodes were given entries |
| `SinkHistory.MeaningLive` | compact_sink.go:416-491 | after any history every child exists |
| `SinkHistory.KeptMeansSame` | compact_sink.go:493-522 | a history means what it means without its attempts |
| `SinkHistory.EndsWithLast` | compact_sink.go:416-460 | a node that is given children ends where the last does, with the trivia behind it, and is faulty if one added to it is |
| `SinkHistory.OtherRowsKept` | compact_sink.go:169-491 | no step changes the row of another node |
| `SinkHistory.StoredData` | compact_sink.go:169-199 | which data of a new node are stored |
| `SinkHistory.FieldFound` | compact_sink.go:462-491 | the node first put into a field is the one found there |
| `SinkState.StepKeeps` | compact_sink.go:169-491 | every step does to the records, side tables and lists what it does to a row of the plain table |
| `SinkState.StepSince` | compact_sink.go:169-491 | a step on new nodes leaves alone all that is older |
| `SinkState.RewoundKeeps` | compact_sink.go:493-522 | going back to a mark gives back the table of the mark |
| `SinkState.Performed` | compact_sink.go:169-522 | any history, however attempts nest in it, leaves the rows of the table it means |
| `CompactSink.Sink.Store` | compact_sink.go:169-199 | adds a node with its data; trivia, if they are kept and there are any, and error data that say something get an entry |
| `CompactSink.Sink.NewNode` | compact_sink.go:208-219 | a node around children, 0 left out: it starts where the first does and ends where the last does, with their trivia, and is faulty if one of them is |
| `CompactSink.Sink.AddChild` | compact_sink.go:436-460 | adds a child that is not 0; the node ends where the child does, and is faulty if the child is |
| `CompactSink.Sink.SetChildren` | compact_sink.go:416-434 | replaces the children; the node ends where the last does |
| `CompactSink.Sink.SetField` | compact_sink.go:471-491 | adds a field whose node is not 0 |
| `CompactSink.Sink.FieldOf` | compact_sink.go:462-469 | the node of the first entry with the id, or 0 |
| `CompactSink.Sink.SetTrivia` | compact_sink.go:341-358 | sets trivia, if they are kept |
| `CompactSink.Sink.SetMishap` | compact_sink.go:375-410 | sets error data |
| `CompactSink.Sink.Mark` | compact_sink.go:493-505 | the lengths and counts to go back to |
| `CompactSink.Sink.Rewind` | compact_sink.go:507-522 | records, side tables, lists, counts and free space are those of the mark |
| `CompactSink.Sink.Perform` | compact_sink.go:169-522 | carries out any history on the arrays as on values |
| `CompactSink.Sink.Tree` | compact_sink.go:530-582 | the finished tree is the reachable part of the table, with its error table |
| `CompactSink.Build` | compact_sink.go:530-582 | from a history of building to the finished tree: the part of the table it means that is reachable from the root |
| `CompactSink.AttemptsLeaveNoTrace` | compact_sink.go:493-582 | the finished tree is the same to the last index with and without the attempts given up |
| `AngleClose.BuildAngleClose` | calls.go:249-275 | the table says of each `<` what a counting scan says: its `>` comes before any `)`, `;` or the end |
| `AngleClose.AngleClosesExactly` | calls.go:256-276 | a `<` has a closing `>` if and only if some `>` brings the count back with no closing parenthesis, semicolon or end between |
| `Pratt.Parser.Expression` | expressions.go:62-73 | one expression, where no comma follows |
| `Pratt.Parser.AssignmentExpr` | expressions.go:75-87 | assignments, to the right |
| `Pratt.Parser.TernaryExpr` | expressions.go:89-111 | conditionals; tag casts are suppressed in the first arm and only there |
| `Pratt.Parser.BinaryExpr` | expressions.go:113-150 | the precedence loop, with the tree so far, reads what the recursive definition reads |
| `Pratt.Parser.UnaryExpr` | expressions.go:169-213 | unary operators, within the depth limit |
| `Pratt.Parser.PrimaryExpr` | literals.go:5-54 | leaves and parentheses |
| `PrattLanguage.AssignmentSound` | expressions.go:75-150 | every tree the parser returns spells the tokens read, fits its place, and stops where no operator of its level follows |
| `PrattLanguage.OperatorsSound` | expressions.go:113-150 | operators read later in the loop bind no tighter than those read before |
| `PrattLanguage.BinaryComplete` | expressions.go:113-150 | a tree whose operators all bind at a level or tighter is what the loop has in hand behind it |
| `PrattLanguage.TernaryComplete` | expressions.go:89-111 | a conditional that fits is read as one |
| `PrattLanguage.ParsesExactly` | expressions.go:24-150 | on spaced tokens the parser returns a tree if and only if it fits, spells the tokens and ends there |
| `OperatorTables.PowerIsRow` | expressions.go:24-48 | binding powers grow with the rows of operators |
| `OperatorTables.GroupsByRow` | expressions.go:24-48 | of two operators the one of the later row groups first, and of the same row the first |
| `OperatorTables.AssignsLast` | expressions.go:50-59 | assignments group to the right, and behind all binary operators |
| `OperatorTables.PrefixesAre` | expressions.go:24-59 | the prefix operators |
| `OperatorTables.LeavesAre` | literals.go:5-17 | names, numbers, characters and null are the leaves that are read |
| `Printing.ParenthesizeFits` | expressions.go:24-49 | a tree printed with the needed parentheses fits its place |
| `Printing.ParenthesizeOnlyWraps` | literals.go:110-126 | printing adds parentheses and changes nothing else |
| `Printing.NothingToWrap` | expressions.go:24-49 | printing adds no parenthesis to a tree that fits as it is |
| `Printing.PrintThenParse` | expressions.go:24-150 | printing any tree and parsing it gives the printed tree, which is the tree up to the added parentheses |
| `Printing.ParseThenPrint` | expressions.go:62-150 | whatever was parsed prints back to the tokens it came from |
| `Printing.Unambiguous` | expressions.go:24-150 | no spaced token list reads two ways |
| `ConditionEval.Evaluator.Level` | preprocess/ifexpr.go:114-192 | the ten operator levels, each a loop over its own operators |
| `ConditionEval.Evaluator.Operators` | preprocess/ifexpr.go:95-112 | the loop of one level, from the value in hand |
| `ConditionEval.Evaluator.UnaryExpr` | preprocess/ifexpr.go:194-214 | signs and sizeof |
| `ConditionEval.Evaluator.SizeofExpr` | preprocess/ifexpr.go:216-254 | sizeof with its selectors; any malformed form makes the condition unknown |
| `ConditionEval.Evaluator.PrimaryExpr` | preprocess/ifexpr.go:256-284 | literals, parentheses, defined and names; anything else makes the condition unknown |
| `ConditionEval.Evaluator.DefinedExpr` | preprocess/ifexpr.go:286-307 | defined looks in macros by the truncated name, in symbols and in declarations |
| `ConditionEval.Evaluator.EvalIdent` | preprocess/ifexpr.go:309-349 | a name is evaluated through its definition, guarded by its full spelling; met again inside, it is 0 |
| `ConditionEval.GuardGrows` | preprocess/ifexpr.go:342-349 | each nested evaluation leaves fewer unguarded names |
| `ConditionEval.EvalCondition` | preprocess/ifexpr.go:15-49 | evaluation ends with the value, or as unknown, for all tables, mutually referring ones included |
| `ConditionForms.DefinedIsKnown` | preprocess/ifexpr.go:286-307 | `defined` of a name is 1 if the name, cut to the table limit, is a macro, or it is a symbol or declared; else 0 |
| `ConditionForms.DefinedRead` | preprocess/ifexpr.go:286-307 | and so it reads wherever it stands in a condition |
| `ConditionForms.DefinedFails` | preprocess/ifexpr.go:286-307 | `defined` of anything else, or without its closing parenthesis, makes the condition fail |
| `ConditionForms.NameIsDefinition` | preprocess/ifexpr.go:309-349 | a name alone is worth what its definition is worth (macro, then symbol, then constant), 0 without one, and 0 where it is met again |
| `ConditionForms.ConditionIsWorth` | preprocess/ifexpr.go:15-49 | a condition has the worth of its tokens in the tables, with no name being evaluated; none if it is empty |
| `ConditionForms.LiteralIsDecoded` | preprocess/ifexpr.go:256-266 | a literal alone is worth what it decodes to |
| `ConditionForms.SizeofRead` | preprocess/ifexpr.go:216-254 | `sizeof` of a name with brackets, in parentheses or not, is the size known for it |
| `ConditionForms.SizeofSound` | preprocess/ifexpr.go:216-254 | and a `sizeof` that reads without fail is one of these |
| `ConditionForms.SizeofIsSize` | preprocess/ifexpr.go:216-254 | so a condition that is such a `sizeof` has that value, and fails if no size is known |
| `OperatorTables.RungIsRow` | preprocess/ifexpr.go:114-192 | the ladder has one rung for each row of operators |
| `OperatorTables.ComparisonsMean` | preprocess/ifexpr.go:114-158 | comparisons and logical operators give 1 exactly where they hold, else 0 |
| `OperatorTables.SumsMean` | preprocess/ifexpr.go:167-214 | sums, differences, products and signs wrap to 64 bits |
| `OperatorTables.DivisionMeans` | preprocess/ifexpr.go:174-192 | division rounds toward zero, the remainder has the sign of what is divided, and by zero there is neither |
| `ExpressionAgreement.LoopsNest` | expressions.go:113-150 | the precedence loop at one binding power is the loop at the next, followed by its own |
| `ExpressionAgreement.OperatorsAgree` | preprocess/ifexpr.go:95-112 | on shared tokens one level of the ladder and the precedence loop consume the same and agree on the value |
| `ExpressionAgreement.LevelAgrees` | preprocess/ifexpr.go:95-284 | the readings of both sides agree at every level and position |
| `ExpressionAgreement.ConditionIsExpression` | preprocess/ifexpr.go:95-284 | a condition with a value is parsed whole into a tree with this value unless too deep; a tree over all tokens has the condition value |
| `ExpressionAgreement.ShortConditionIsExpression` | expressions.go:113-197 | below the recursion limit the parser never gives up first |
| `Conditionals.Preprocessor.Evaluate` | preprocess/directives.go:213-228 | a condition is evaluated only in an active place; one that cannot be is reported and false |
| `Conditionals.Preprocessor.HandleIf` | preprocess/directives.go:190-211 | pushes a frame, beyond the depth limit an inactive one |
| `Conditionals.Preprocessor.HandleElseIf` | preprocess/directives.go:230-257 | at most one arm of a group becomes active |
| `Conditionals.Preprocessor.HandleElse` | preprocess/directives.go:259-280 | active exactly if the place is and no arm was |
| `Conditionals.Preprocessor.HandleEndIf` | preprocess/directives.go:282-295 | pops a frame, or reports a stray directive |
| `Conditionals.Preprocessor.RunContents` | preprocess/engine.go:551-588 | a file is processed as its lines say, plain lines taking others with them; if the lines spell a tree and no directive is taken, as reading the tree says |
| `Conditionals.StepConsistent` | preprocess/directives.go:190-295 | parentActive is branchActive of the frame below; branchActive implies parentActive and taken; frames beyond the limit are inactive |
| `Conditionals.RunConsistent` | preprocess/engine.go:319-363 | in every reachable state |
| `Conditionals.HandledIfTidy` | preprocess/engine.go:551-563 | the lines handled as directives are all the directives in order if and only if no active plain line takes one |
| `Conditionals.MachineReads` | preprocess/directives.go:190-295 | if no directive is taken, running the lines of a tree from any consistent stack does what reading the tree does, and leaves the stack as it was |
| `Conditionals.ArmsRead` | preprocess/directives.go:230-295 | the remaining arms of a group: the first #else or non-zero condition is chosen |
| `Conditionals.FileIsTree` | preprocess/engine.go:551-588 | a whole well-nested file none of whose directives is taken is read as its tree, with nothing unterminated |
| `Conditionals.NestedIsTree` | preprocess/directives.go:190-295 | the well-nested line lists are exactly those that spell a tree |
| `Conditionals.ReportsMismatch` | preprocess/directives.go:230-295 | if no directive is taken, stray and missing ones are reported if and only if the lines are not well nested |
| `Selection.SelectedExactly` | preprocess/directives.go:190-295 | a plain line is processed if and only if it is come to and every group around it chose the arm it is in: the first #else or condition that is not zero, by the values in the state in which the group was come to, within the depth limit |
| `Selection.ActiveExactly` | preprocess/directives.go:190-295 | the same of any place, nested or not, in any list of lines |
| `Selection.AskedExactly` | preprocess/directives.go:213-257 | a condition is evaluated only in an active place where no arm before it held; one without a value is reported and does not hold |
| `Selection.StrayReported` | preprocess/directives.go:230-295 | a directive outside all groups is reported as what it is and changes nothing |
| `Selection.TooDeepReported` | preprocess/directives.go:190-211 | an #if beyond the depth limit cuts output short |
| `Selection.DepthReportedOnce` | preprocess/directives.go:190-211 | which is reported once at most in a run |
| `LineCuts.EndIsFound` | preprocess/directives.go:29-39 | a line ends with the first token that ends it |
| `LineCuts.PlainIsCut` | preprocess/engine.go:551-588 | a line that starts with no # is plain text up to its end |
| `LineCuts.ConditionalIsCut` | preprocess/directives.go:42-67 | a # and one of the four words make that directive, with the rest of its line for its condition |
| `LineCuts.OthersAreCut` | preprocess/directives.go:42-93 | any other word makes no conditional |
| `LineCuts.LinesAreCuts` | preprocess/engine.go:551-563 | the lines of a file are cut one behind the other |
| `Frames.Frame.CollectRestOfLine` | preprocess/directives.go:29-39 | the tokens up to the end of the line, and the position behind it |
| `Frames.Frame.HandleDirectiveLine` | preprocess/directives.go:42-93 | a directive is cut from the tokens as the lines are cut, and does to the frames what its line does |
| `Frames.Frame.EmitActive` | preprocess/expand.go:11-31 | a token of a plain line leaves as much to do as its line says: nothing where inactive, a macro use the lines behind those it takes |
| `Frames.Frame.RunContents` | preprocess/engine.go:551-588 | the loop over a file's tokens ends where running the lines cut from them does; if they spell a tree and no conditional is taken, as reading the tree says |
| `Frames.LinesBehind` | preprocess/engine.go:551-563 | the tokens behind n cut lines are cut into the remaining lines |
| `Frames.LoneHashTakesDirective` | preprocess/directives.go:42-55 | a # alone on its line and the directive behind it are one unknown directive |
| `MacroArguments.CollectArgs` | preprocess/expand.go:190-231 | arguments, cut at the commas outside all brackets, run over line ends to the first parenthesis outside all brackets, or to the end of the file; an empty pair of parentheses holds none |
| `MacroArguments.ArgumentsConserve` | preprocess/expand.go:190-231 | the tokens read are the arguments with one comma between each and the next, the parenthesis and the rest of its line; unclosed arguments are all there is |
| `MacroArguments.ArgumentsCutRight` | preprocess/expand.go:190-231 | arguments are cut at each comma outside all brackets and at no other, and end at the first closing parenthesis there |
| `TakenLines.ClosedMeans` | preprocess/pattern.go:393-415 | every line is closed if and only if arguments close in front of the next conditional and no directive stands behind a line of text that ends in a backslash |
| `TakenLines.SafeIsClosed` | preprocess/expand.go:11-31 | a line takes no conditional, whatever it takes, if and only if it is closed or no conditional follows it |
| `TakenLines.TidyExactly` | preprocess/expand.go:11-31 | no conditional is taken under any macros and conditions if and only if each line that some come to is closed or has no conditional behind it |
| `TakenLines.ClosedIsTidy` | preprocess/expand.go:11-31 | if all lines are closed no conditional is taken, whatever the macros are |
| `TakenLines.ClosedFileIsTree` | preprocess/engine.go:551-588 | then a well-nested file is read as its tree |
| `MacroUses.ArgumentsBehind` | preprocess/expand.go:190-231 | arguments do not depend on what stands in front of them |
| `MacroUses.LinesTake` | preprocess/expand.go:137-168 | if each macro use takes the lines of the arguments behind it, or some that its pattern reaches, so does each line |
| `MacroUses.ReadFile` | preprocess/engine.go:551-588 | a file of tokens whose lines are closed and well nested is read as its tree, by the loop over its tokens, whatever macros there are |
| `TakenDirectives.SmallTakesLines` | preprocess/expand.go:102-123 | the two-macro preprocessor of the counterexamples takes lines as any macros do |
| `TakenDirectives.SkippedIsWritten` | preprocess/expand.go:190-231 | a well-nested file where no directive is handled and a line inside #if 0 is written |
| `TakenDirectives.EndIfIsTaken` | preprocess/expand.go:190-231 | a well-nested file whose #endif is reported missing |
| `TakenDirectives.IfIsTaken` | preprocess/pattern.go:298-338 | a well-nested file without parentheses: a comment that ends in a backslash lets a pattern take the #if, the skipped line is written, and the #endif is reported unmatched |
| `Scanning.Scanner.Advance` | lexer/scanner.go:45-55 | line and column follow the newlines passed |
| `Scanning.Scanner.SkipBlockComment` | lexer/scanner.go:125-137 | a block comment ends at the first closing mark, or at the end of input |
| `Scanning.Scanner.SkipQuoted` | lexer/literals_operators.go:5-54 | a quoted literal ends at its quote, escapes skipped, or unclosed before a newline or the end |
| `Scanning.Scanner.Number` | lexer/words_numbers.go:44-87 | numbers with prefixes, separators, fraction and exponent |
| `Scanning.Scanner.Operator` | lexer/literals_operators.go:56-68 | operators by the table of up to four characters |
| `Scanning.Scanner.NextRaw` | lexer/scanner.go:57-102 | one raw token with its positions, never empty before the end |
| `Scanning.Scanner.NextSyntax` | lexer/scanner.go:73-101 | the sorts of tokens that are no trivia |
| `Lexing.TokensFromTile` | lexer/lexer.go:145-217 | tokens and trivia tile the source from any position, with right positions, trivia split at the line end |
| `Lexing.TokensSpell` | lexer/lexer.go:352-374 | what tiles the source spells it |
| `Lexing.LexingIsLossless` | lexer/lexer.go:145-217 | leading trivia, tokens and trailing trivia of any source concatenate to it |
| `Lexing.ReadTrailing` | lexer/lexer.go:196-210 | trailing trivia reaches to the end of the line or the next token |
| `Lexing.BuildTokens` | lexer/lexer.go:145-217 | the builder records stand for these tokens; their ranges cut the trivia array into consecutive pieces using all of it |
| `Lexing.Tokenize` | lexer/lexer.go:28-31 | the tokens, spelling the source |
| `Lexing.ReadTrailingFlags` | lexer/lexer.go:107-119 | the flags of the trailing trivia |
| `Lexing.BuildSyntaxTokens` | lexer/lexer.go:88-134 | the fast builder: the kinds and spans of the full one, and flags that are those of its trivia |
| `LineMaps.NewLineMap` | token/line_map.go:11-20 | the offsets at which lines start |
| `LineMaps.ScannerPosition` | token/line_map.go:22-29 | the scanner line is the number of starts so far and its column counts from the last |
| `LineMaps.LookUp` | token/line_map.go:22-29 | any increasing table: the last start not above the offset, or line 1 if there is none |
| `LineMaps.FindPosition` | token/line_map.go:22-29 | the bisected table gives every offset the position the scanner gives it |
| `Spellings.OperatorMunch` | lexer/literals_operators.go:56-249 | the operator read is spelled there, none that is spelled there is longer, and unknown means there is none |
| `Spellings.WordMunch` | lexer/words_numbers.go:21-30 | a word is maximal; it is the keyword it spells, or an identifier no keyword spells |
| `Relexing.NumberCut` | lexer/words_numbers.go:44-87 | a number lexes the same without what follows it |
| `Relexing.QuotedCut` | lexer/literals_operators.go:5-54 | so does a quoted literal |
| `Relexing.TokenAlone` | lexer/scanner.go:57-102 | the text of every token of every source lexes to this token and nothing more |
| `TokenShapes.LiteralExactly` | lexer/literals_operators.go:5-54 | where a string or character literal starts, it is read up to an end if and only if plain characters and backslash pairs, then its quote, stand up to there; else an unknown token up to the end of the line or text |
| `TokenShapes.LiteralsStart` | lexer/scanner.go:57-102 | and literals are read nowhere else |
| `TokenShapes.LineCommentExactly` | lexer/scanner.go:116-123 | a line comment reaches exactly to the end of its line |
| `TokenShapes.BlockCommentExactly` | lexer/scanner.go:125-137 | a block comment reaches exactly to behind the first closing mark, or to the end |
| `TokenShapes.BlanksExactly` | lexer/scanner.go:104-113 | blanks reach exactly as far as they go |
| `TokenShapes.LineEndsExactly` | lexer/scanner.go:66-79 | line ends, and those behind a backslash |
| `TokenShapes.NumberExactly` | lexer/words_numbers.go:44-87 | where a number starts it is read with this kind and end if and only if prefix, digits, fraction and exponent, each as far as it goes, stand up to there |
| `TokenShapes.ParameterExactly` | lexer/words_numbers.go:32-42 | a parameter is two percent signs, or one and all the digits behind it |
| `TreeCopy.OpenNode` | reparse.go:188-194 | a node met first gets the next number before its children are looked at |
| `TreeCopy.CloseNode` | reparse.go:217-224 | its record is completed with renamed lists, others untouched |
| `TreeCopy.Copier.Copy` | reparse.go:178-225 | copying ends on every graph, shared or cyclic, and fails only at an edge out of the tree |
| `TreeCopy.Copier.CopyChildren` | reparse.go:201-208 | children are copied in order and renamed through the table |
| `TreeCopy.Copier.CopyFields` | reparse.go:209-216 | fields keep their ids and are renamed through the table |
| `TreeSplice.CopyIsReachablePart` | reparse.go:178-225 | a copy holds the nodes its root reaches, one for one, and each new number is used |
| `TreeSplice.Splice` | reparse.go:132-168 | old children and the fragment are copied side by side; the new root lists them, its fields dropped |
| `TreeSplice.ReplacedExactlyBehindDeclarations` | reparse.go:88-151 | the target, and only it, is replaced if and only if every root child before it is a declaration |
| `TreeSplice.SpliceDeclaration` | reparse.go:53-168 | as the caller uses it: the new root lists the copies of all old children in order, with the replacement for the target if and only if every child before it is a declaration; success is reported either way |
| `TreeSplice.NothingReplaced` | reparse.go:88-151 | a tree with a directive first: splicing succeeds, and the old declaration is still there |
| `Shifts.ShiftsAreMonotone` | rebase.go:101-121 | shifting keeps the order of offsets and stays inside the new source |
| `Shifts.RangeStaysRange` | rebase.go:101-121 | a range stays a range, but for an empty one at an insertion point |
| `Shifts.InsertionTurnsEmptyRange` | rebase.go:101-121 | an empty range at an insertion that is turned inside out |
| `Shifts.OutsideTextKept` | reparse.go:78-86 | text outside a valid edit is found at its shifted place |
| `Shifts.EditedTextCovered` | rebase.go:101-121 | a range around the edit covers its old text with the new put in |
| `DeclarationIndex.BuildDeclarationIndex` | declaration_index.go:25-53 | every entry has the ordinal of its kind and name; reliable means no errors, in order, no overlap |
| `DeclarationIndex.ContainsExactly` | declaration_index.go:112-117 | a range contains an edit if it holds every byte of it, an insertion at either end too |
| `DeclarationIndex.RebaseTarget` | declaration_index.go:98-110 | the one entry that contains the edit, or none |
| `DeclarationIndex.RebaseDeclarationIndex` | declaration_index.go:57-144 | succeeds exactly if the edit has one target and leaves kinds, names and number as they were; then entries move and the target is made afresh |
| `DeclarationIndex.SameIdentity` | declaration_index.go:119-144 | the target ordinal is its old one, so its identity never stands in the way |
| `DeclarationIndex.RebaseIsBuild` | declaration_index.go:57-187 | the rebased index is the fresh one if and only if the other bytes hash as before and the declarations are in order |
| `DeclarationIndex.RebaseKeepsStale` | declaration_index.go:119-144 | a valid edit inside one declaration after which rebasing succeeds and keeps an outdated fingerprint of the next |
| `CompactTokens.Compactor.AddOrigin` | compact.go:332-358 | origins are numbered once each, before their parents, and macro names once each; ends for every parent graph |
| `CompactTokens.Compactor.AddTrivia` | compact.go:360-371 | trivia items are appended and their window returned |
| `CompactTokens.CompactTokens` | compact.go:314-384 | every record says by numbers what its token says |
| `CompactTokens.ExpandTokens` | compact_expand.go:100-146 | records are expanded through the tables |
| `CompactTokens.ChainBack` | compact_expand.go:100-146 | origin chains come back whole, however long |
| `CompactTokens.ExpandUndoesCompact` | compact_expand.go:100-146 | expanding undoes compacting: kinds, positions, trivia and chains are equal, and the same origins are shared |
| `DiagnosticCoverage.BuildDiagnosticCoverage` | parser.go:609-629 | sorted points, and ranges sorted by start with the furthest end so far |
| `DiagnosticCoverage.DiagnosticCovers` | parser.go:591-601 | two bisections answer as a scan over all diagnostics |
| `Includes.Engine.HandleInclude` | preprocess/includes.go:47-98 | what an active #include does: skipped, not found, a cycle, too deep, or entered |
| `Includes.Engine.SpliceInclude` | preprocess/includes.go:130-158 | the file is read one level deeper while it counts as live |
| `Includes.Engine.HandleImplicitPrefix` | preprocess/includes.go:101-128 | the prefix file comes first |
| `Includes.Engine.RunContents` | preprocess/engine.go:551-588 | a frame ends with its lines, its own end of input, or a stop |
| `Includes.PushTracks` | preprocess/includes.go:146-150 | entering a file counted less than twice keeps the table the count of the live files |
| `Includes.EnteredExactly` | preprocess/includes.go:47-98 | when an include is entered, and the files and records it leaves |
| `IncludeOrigins.FilesCome` | preprocess/includes.go:47-158 | every file of a run but the first comes from an include line of a file read before it, resolved against that file, one level deeper; or it is the prefix file |
| `IncludeOrigins.RefusedReports` | preprocess/includes.go:71-86 | what is reported of an include that enters no file: not found, a cycle, or too deep |
| `IncludeOrigins.SkippedIsRecorded` | preprocess/includes.go:54-66 | an include remembered by compatibility mode is recorded only |
| `IncludeOrigins.LastPartIs` | preprocess/includes.go:55-60 | it is remembered by the part of its path behind the last backslash |
| `IncludeOrigins.CompatNameIs` | preprocess/includes.go:54-61 | behind `_inc_`, cut to the limit of names |
| `Includes.EveryRunIsBounded` | preprocess/includes.go:11-158 | for every resolver no frame is deeper than the limit, no file is included more than twice at a time, with the first file of the run no other is read more than twice and it at most three times, and none is live at the end |
| `Includes.FirstFileThrice` | preprocess/engine.go:416-504 | a file that includes itself is read three times at once |
| `Includes.Preprocess` | preprocess/engine.go:416-504 | the whole run ends with this result |
| `Recovery.UpdateRecoveryLiveness` | parser.go:750-770 | the counter is the number of open groups that left their first arm |
| `Recovery.RecoverStuckItem` | parser.go:688-748 | skips to the first semicolon, closer or directive outside the brackets that count, and always moves on before the end |

## Left out

- Statement and declaration grammar beyond expressions, its lookahead heuristics, and the pointer tree with its sink.
- Comma lists, calls, subscripts, selections, tag casts, sizeof, string concatenation, array literals, macro operators and `%0` after an operand: reading stops with `Outside` there in `Pratt`.
- Pratt.Parser.PrimaryExpr: keywords in front of an opening parenthesis and the leaves of other literals stop with `Outside` as well.
- Pratt.Parser.Expression: a comma behind an expression stops with `Outside`.
- Pratt.Parser.TernaryExpr: the error node for a missing colon is not modelled; reading stops with `Outside` there.
- Pratt.Parser.BinaryExpr: `%0` and its like, read as an operator and a literal, stop with `Outside`.
- Pratt.Parser.UnaryExpr: sizeof, tagof, defined, tag casts and macro operators stop with `Outside`.
- PrattLanguage.ParsesExactly: assumes that no `<` touches its left operand and no `>` stands before a colon, where the parser would look for angle brackets.
- ExpressionAgreement.ConditionIsExpression: for literals, parentheses, `! ~ + -` and the operators both sides know, so without `>>>` and names.
- Origins, positions, invocation records and the listing of macro expansion; `Expansion` keeps what decides which steps are taken and what is spelled.
- ExpansionEngine.Engine.AppendOut: a token's origin, its listing and the declaration tracker that sees it are not modelled.
- ExpansionEngine.Engine.ExpandPatternSlice: capture origins and invocation spans are not modelled.
- ExpansionEngine.Engine.ApplyUse: invocation records and the diagnostic at the depth limit are not modelled.
- Top-level function-like and pattern macro uses read on from the file's own tokens (preprocess/expand.go:102-168); which lines they take is modelled in `MacroArguments` and `MacroUses`, the rescanning of the result is the same loop.
- MacroUses.ReadFile: what a macro use takes is counted in lines as they are cut. Where a `#` stands alone on a line behind a joined one, a pattern can end between the two lines of that directive; the condition on lines shuts such files out, and nothing is claimed of them.
- That an attempt changes only nodes it made, and that children exist when they are added, is what the parser keeps to; the sink does not check it.
- The arena that trivia lists are cut from, temporary child lists (compact_sink.go:221-223), and ids beyond 32 bits.
- CompactBuilder.ListBuilder.NewNode: one list storage alone; the record, trivia and error data of a node are in `CompactSink.Sink.Store`.
- CompactBuilder.ListBuilder.AddItem: the guard against child 0 and the node's end, trivia and error flag are in `CompactSink.Sink.AddChild`.
- CompactBuilder.ListBuilder.SetItems: the node's end and trivia are in `CompactSink.Sink.SetChildren`.
- CompactBuilder.ListBuilder.TakeMark: the lengths of the other tables are in `CompactSink.Sink.Mark`.
- CompactBuilder.ListBuilder.RewindTo: the other tables are rewound in `CompactSink.Sink.Rewind`.
- Branch records and spans, diagnostics text, and listing lines of conditionals.
- Conditionals.Preprocessor.RunContents: what a plain line does and how many lines it takes are parameters, which `Frames` and `MacroUses` make out of what its tokens do.
- Conditionals.MachineReads: what an inactive line other than a conditional directive does is taken to be nothing.
- Includes.Engine.RunContents: how lines are cut from the tokens and what a plain line takes are parameters; they are modelled in `Frames`.
- Includes.Engine.HandleInclude: scanning the path out of the directive's bytes, and cancellation while tokenizing, are not modelled.
- Lexing.BuildTokens: the builder's blocks of records are plain lists, so their reuse through pools is not modelled.
- The library's sorting is modelled by insertion; only its result matters in `DiagnosticCoverage`.
- TreeSplice.Splice: the conditions under which a declaration is reparsed at all (reparse.go:10-76) and the shift of node data are parameters.
- DeclarationIndex.BuildDeclarationIndex: finding a declaration's name in its node is not modelled; ordinals are assumed to fit 32 bits.
- CompactTokens.CompactTokens: offsets, lines and columns are assumed to fit 32 bits, as the program panics otherwise.
- CompactTokens.Compactor.AddOrigin: the assignment to `origins[id]` that calls addOrigin for the parent (compact.go:352-356) is taken to call first; the language does not fix the order.
- Rebasing trivia and reusing a compatible context: they need conditions on the edit that the code does not check.
- Cancellation, contexts, pools, file access, resolvers and the token cache.
- The declaration tracker; following its integer constants has no guard, so nothing is claimed about a whole run that does.
