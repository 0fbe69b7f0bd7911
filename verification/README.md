# A verified model of the no-code platform's core

The platform lets users define apps with typed fields, fill in records, share them by department, and ask
a language model about them. This project states what its algorithmic core does and proves it in Dafny
4.11. `dafny verify dfyconfig.toml` checks everything.

| part | modules |
|---|---|
| formula language: tokenizer, grammar, evaluator, printer, rules, automatic numbers | `Numbers`, `Values`, `Strings`, `Lexer`, `FormulaText`, `Grammar`, `Evaluator`, `Formulas`, `FormulaValues`, `Rules`, `RuleValues`, `AutoNumbers` |
| recomputing calculated fields, subtable rows and numbers of a record | `Calc`, `Completion`, `FieldOrder` |
| streaming an answer without its thinking blocks, and the event stream to the client | `ThinkFilter`, `ThinkTexts`, `Splitting`, `Streams` |
| cutting documents into chunks | `TextInk`, `Sections`, `Outline`, `Packing`, `Emission`, `Chunker`, `Windows` |
| the department tree, its walks and the import | `Forest`, `GroupWalks`, `Departments` |
| the priority limiter of model calls | `Queue` |
| versions, history and trash of records | `RecordStore` |
| CSV export and import | `Csv` |
| rights, record rules and semantic search | `Permissions`, `Search` |
| cleaning up app definitions | `Definitions`, `CleanDefinitions`, `DefinitionValues` |
| login lock and submission limit | `Throttle`, `RateWindow` |
| removing script and style from HTML | `StripBlocks` |

Loops and objects that change state are methods and classes. Each is proved equal to a function of its
input or of its old state, and the laws are lemmas about that function. The client's evaluator
(`frontend/src/lib/calc.ts:10-258`) differs from the server's only in its error messages and is modelled once. "Up to white space" means that the
other characters are the same, in the same order (`TextInk.Ink`).

## What the proofs found

- Streaming: removing a thinking block can join the text around it to a new opening tag, of its own or of
  another kind. Then a part of that tag is passed on and the result is longer than the visible text
  (`ThinkFilter.JoinedText` builds such a text for every kind). `ThinkFilter.FaithfulExactly` gives the exact
  condition for text of one kind, as long as no joined tag is closed again and so removed itself;
  `ThinkFilter.FaithfulByPrefixes` gives one for all texts.
- Streaming: a response that ends without a line end loses its last line (`Streams.UnfinishedLineLost`).
  The comment at `llm.service.ts:358` expects fragments to be completed by a later chunk; for the last one
  there is none.
- Calculated fields: the database lists fields in no declared order. Two orders always give the same record
  exactly when they put every calculated field on the same side of each one it reads
  (`FieldOrder.OrdersExactly`). A field listed before one that it reads is computed without it
  (`FieldOrder.LateDependency`), and fields that read each other have no definite value
  (`FieldOrder.OrderMatters`).
- CSV: a text that is itself a quote before a formula lead loses the quote on the way back, and no other
  text changes (`Csv.DecodeExactly`, `Csv.ExportDecodesExactly`).
- Departments: going up and going down agree exactly when the walk up ends or comes back within the cap of
  50 (`GroupWalks.WalksAgree`); a chain of 51 departments is too long (`GroupWalks.ChainExactly`).
- Chunks: a container heading that follows a small section under the same parent is merged with that
  section instead of being skipped; a heading is skipped only as the start of a group
  (`Emission.DroppedOnly`, `Emission.SkippedIsNamed`).
- Definitions: field codes can come out longer than the 100 characters that saving a field accepts
  (`field.dto.ts:47`), because a prefix or a number is added after the cut. Such a code is cut when it is
  cleaned up again, unless the numbering makes it the same (`CleanDefinitions.SanitizeTwice`,
  `CleanDefinitions.LongCodeIsCut`).
- Search: the list query looks users without a department up under a reserved id. An app shared with that
  id is listed for them although they may not view it, and search can return its records
  (`Permissions.ListedButNotViewable`). `Permissions.VisibleExactly` and `Search.SearchRefinesRoute` say that
  this is the only difference.
- Preview: the client's preview differs from what is stored exactly when rows are not current or a stored
  automatic number was changed (`Completion.PreviewExactly`).


## Model

| member | source | states |
|---|---|---|
| `Lexer.Tokenize` | `backend/src/records/compute.util.ts:26-67` | the tokenizer's loop gives `Lex`: the same tokens, or the same refusal of an unknown character, for every text |
| `Lexer.ReadIdentifier` | `backend/src/records/compute.util.ts:36-45` | a dotted column name is one token, and a dot that no identifier start follows ends it |
| `FormulaText.LexExactly` | `backend/src/records/compute.util.ts:26-67` | a text tokenizes to a token list exactly when it is a legal layout of it: the tokens in order with blanks between, and no two that would run together |
| `FormulaText.LayoutLexes` | `backend/src/records/compute.util.ts:26-67` | every legal layout of a list of valid tokens reads back as that list |
| `FormulaText.CompactLexes` | `backend/src/records/compute.util.ts:26-67` | without any blank, tokens that may touch read back |
| `Grammar.ParseExactly` | `backend/src/records/compute.util.ts:69-157` | the grammar accepts exactly the written forms of bracketed trees and returns the tree: precedence, left association, signs, one comparison at most, calls and aggregates, all tokens consumed |
| `Evaluator.EvalFormula` | `backend/src/records/compute.util.ts:11-21` | evaluating while parsing equals parsing to a tree and evaluating that: same value to six decimals, same empty result for every text that fails |
| `Evaluator.Parser.ParseExpression` | `backend/src/records/compute.util.ts:78-87` | computes the value of the tree the grammar reads here and stops where that ends, or throws where there is none or evaluating it throws |
| `Evaluator.Parser.ParseAdditive` | `backend/src/records/compute.util.ts:88-97` | the same for sums, folded to the left as they are read, always past at least one token |
| `Evaluator.Parser.ParseTerm` | `backend/src/records/compute.util.ts:98-107` | the same for products, with a zero divisor giving zero |
| `Evaluator.Parser.ParseFactor` | `backend/src/records/compute.util.ts:108-130` | the same for signs, numbers, references, calls, aggregates and brackets |
| `Evaluator.Parser.ParseCall` | `backend/src/records/compute.util.ts:131-148` | the same for a call and its argument list |
| `Evaluator.Parser.ParseAggregate` | `backend/src/records/compute.util.ts:149-157` | the same for a subtable aggregate |
| `Formulas.DenotesExactly` | `backend/src/records/compute.util.ts:11-157` | texts and trees determine each other: a text denotes a tree exactly when it is a layout of the written tree |
| `Formulas.BracketMinimal` | `backend/src/records/compute.util.ts:78-130` | a tree that already reads back as written is printed without any further bracket |
| `Formulas.TextDenotes` | `backend/src/records/compute.util.ts:11-157` | every tree, printed with the brackets it needs, reads back as itself |
| `Formulas.TextEvaluates` | `backend/src/records/compute.util.ts:11-21` | the result for a printed tree is the direct value of the tree |
| `Formulas.LayoutEvaluates` | `backend/src/records/compute.util.ts:11-21` | the same for every other layout of it |
| `Formulas.FormulaReadsOnly` | `backend/src/records/compute.util.ts:108-182` | a result depends only on the record entries its text names |
| `FormulaValues.LiteralIs` | `backend/src/records/compute.util.ts:108-114` | a literal denotes its decimal value; what follows a second point is not read |
| `FormulaValues.SignsShown` | `backend/src/records/compute.util.ts:108-121` | a field or a literal alone shows its number to six decimals, halves up, and with a minus its negative |
| `FormulaValues.FourOperations` | `backend/src/records/compute.util.ts:88-106` | `x + y`, `x - y`, `x * y` show a + b, a - b, a * b, and `x / y` the number that times b is a, or 0 where b is 0 |
| `FormulaValues.WholeNumbers` | `backend/src/records/compute.util.ts:11-106` | for two naturals written in digits, sum, difference and product come out exactly |
| `FormulaValues.WholeQuotients` | `backend/src/records/compute.util.ts:98-106` | a division without remainder comes out exactly |
| `FormulaValues.SixComparisons` | `backend/src/records/compute.util.ts:184-194` | each comparison shows 1 exactly when the relation holds and 0 otherwise, with infinities at the ends and NaN unordered |
| `FormulaValues.PrecedenceShown` | `backend/src/records/compute.util.ts:78-106` | `x-y-z`, `x-y*z`, `x/y/z` and `x-y>z` show (a-b)-c, a-(b*c), (a/b)/c and (a-b)>c |
| `FormulaValues.BracketsShown` | `backend/src/records/compute.util.ts:122-128` | `(x-y)*z` shows (a-b)*c |
| `FormulaValues.ExtremesShown` | `backend/src/records/compute.util.ts:199-200` | `min` and `max` show what one operand shows alone, and none is below or above that one; nothing without operands or with one that is not a number |
| `FormulaValues.ChoiceShown` | `backend/src/records/compute.util.ts:198-198` | `if` shows what its second operand shows alone, or its third if the first is zero; one that is left out counts as 0 |
| `FormulaValues.RoundingShown` | `backend/src/records/compute.util.ts:201-204` | `floor`, `ceil` and `round` show the whole number of their interval, halves up, and `abs` the distance from zero |
| `FormulaValues.AggregatesShown` | `backend/src/records/compute.util.ts:166-182` | `sum` shows the sum of the finite numbers in the filled cells, `avg` the number that times their count is that sum, 0 if there are none, `count` the number of rows |
| `FormulaValues.AggregatesWithout` | `backend/src/records/compute.util.ts:166-173` | without a list of rows an aggregate is 0; `sum` and `avg` of a list without a column show nothing |
| `FormulaValues.UnknownNames` | `backend/src/records/compute.util.ts:205-207` | any other function name shows nothing |
| `FormulaValues.InfiniteOperands` | `backend/src/records/compute.util.ts:88-106` | with an operand that is infinite or no number: nothing is shown unless a division makes it 0, and comparing with 0 tells the sign |
| `FormulaValues.InfiniteSigns` | `backend/src/records/compute.util.ts:12-18` | an infinity or what is not a number shows nothing, nor does its negative or its rounding |
| `FormulaValues.BlanksSkipped` | `backend/src/records/compute.util.ts:31-31` | spaces and tabs in front of a text change nothing |
| `FormulaValues.ForeignCharacters` | `backend/src/records/compute.util.ts:62-64` | a text with a character outside the language shows nothing |
| `Rules.FirstRuleDecides` | `backend/src/records/compute.util.ts:226-240` | the value is that of the first rule whose conditions all hold, else the fallback |
| `Rules.EvalRulesReads` | `backend/src/records/compute.util.ts:226-263` | rules read only the fields their conditions name |
| `RuleValues.NumbersDecide` | `backend/src/records/compute.util.ts:242-255` | a condition on numbers holds exactly when the relation does, against the named field or else the constant; what is missing or no number counts as 0 |
| `RuleValues.TextsDecide` | `backend/src/records/compute.util.ts:256-262` | `==` and `!=` compare what the values are written as, `empty` and `notempty` ask for a value, and an unknown operation never holds |
| `RuleValues.RulesInTurn` | `backend/src/records/compute.util.ts:226-235` | the first rule whose conditions all hold, each taken alone, gives its result |
| `RuleValues.ResultsGiven` | `backend/src/records/compute.util.ts:265-269` | a result is given as it is, but texts that read as numbers become numbers and nothing the empty text |
| `AutoNumbers.LabelsDiffer` | `backend/src/records/compute.util.ts:272-277` | different counters never give the same label under one prefix and padding |
| `Calc.ComputeCalcFields` | `frontend/src/lib/calc.ts:262-275` | the client's loop gives `Calcs`, the fold whose laws follow |
| `Calc.CalcsSolve` | `backend/src/records/records.service.ts:519-529` | with unique codes and dependencies first, every calculated field ends up with its value in the final record, and nothing else changes |
| `Calc.OnlySolution` | `backend/src/records/records.service.ts:519-529` | no other record satisfies these equations |
| `Calc.CalcsConfluent` | `backend/src/records/records.service.ts:518-529` | two orders that put every calculated field on the same side of each one it reads give the same record, also when fields read each other in circles |
| `Calc.CalcsIdempotent` | `backend/src/records/records.service.ts:518-529` | computing again changes nothing |
| `Completion.AssignNumbers` | `backend/src/records/records.service.ts:486-497` | the numbering loop: a new number only on creation and only where none is given, the stored one kept on update |
| `Completion.ComputeRows` | `backend/src/records/records.service.ts:508-515` | each row gets its calculated columns in their order |
| `Completion.ComputeFields` | `backend/src/records/records.service.ts:475-531` | the three loops give `Completed`, the function of input, stored data and counters whose laws follow |
| `Completion.CompletedConfluent` | `backend/src/records/records.service.ts:475-531` | two such orders complete every record to the same |
| `Completion.CompletedRowsCurrent` | `backend/src/records/records.service.ts:498-516` | every subtable row of the completed record is up to date |
| `Completion.CompletedIdempotent` | `backend/src/records/records.service.ts:475-531` | saving a completed record again leaves it as it is |
| `Completion.PreviewAgrees` | `frontend/src/lib/calc.ts:262-275` | on any edit of any stored record, the client's preview is what the server stores, if the rows are current and the stored automatic numbers kept |
| `Completion.PreviewExactly` | `backend/src/records/records.service.ts:475-531` | and with unique codes exactly then |
| `Completion.NumbersNeverRepeat` | `backend/src/records/records.service.ts:487-497` | over any number of creations no two records get the same automatic number for a field |
| `Completion.NumberStored` | `backend/src/records/records.service.ts:486-497` | on creation a number that is not given is stored as the prefix and the next number in digits, with zeros up to the padding and no further; a given one stays, and on update the stored one |
| `Completion.RowsStored` | `backend/src/records/records.service.ts:498-516` | the rows of a subtable with a calculated column are stored with all their calculated columns; without one they stay |
| `Completion.OthersStay` | `backend/src/records/records.service.ts:475-531` | entries of plain fields and of no field stay as given |
| `FieldOrder.OrdersExactly` | `backend/src/records/records.service.ts:475-531` | two orders complete every record to the same, whichever definitions the fields have that read no more, exactly when they put every calculated field on the same side of each one it reads |
| `FieldOrder.OrderedExactly` | `backend/src/records/records.service.ts:483-529` | where dependencies come first in one order, the orders that always give the same are exactly those in which they also do |
| `FieldOrder.LateDependency` | `backend/src/records/records.service.ts:518-529` | x reads y and y a plain field: with y listed after x, x is computed without y, and differs from what it is with y listed first |
| `FieldOrder.OrderMatters` | `backend/src/records/records.service.ts:483-483` | two fields that read each other: neither order has dependencies first, and the two orders give different records |
| `ThinkFilter.EmittedExactly` | `backend/src/llm/llm.service.ts:331-340` | for text that opens blocks of one kind only, if removing them joins no opening tag of any kind, the tokens passed on spell exactly the visible text, however the text is cut |
| `ThinkFilter.StreamedWithin` | `backend/src/llm/llm.service.ts:331-340` | what has been passed on is at every moment a prefix of the final visible text |
| `ThinkFilter.JoinedLeaks` | `backend/src/llm/llm.service.ts:331-340` | if a removed block joins an opening tag of any kind and no joined tag is closed again, some cut of the text passes on more than is visible in the end |
| `ThinkFilter.FaithfulExactly` | `backend/src/llm/llm.service.ts:498-513` | for text of one kind in which no joined tag is closed again: faithful under every cut exactly when removing the blocks joins no opening tag of any kind |
| `ThinkFilter.FaithfulByPrefixes` | `backend/src/llm/llm.service.ts:331-340` | for every text, of any kinds: faithful under every cut exactly when what each single flush would show begins the final visible text |
| `ThinkFilter.JoinedText` | `backend/src/llm/llm.service.ts:498-513` | for each kind of tag, a concrete text of one kind that joins it, with a cut that leaks |
| `ThinkTexts.BlockHidden` | `backend/src/llm/llm.service.ts:499-513` | in a text without other tags, a block in any of the three pairs of tags, in any case, is hidden and the text around it shown |
| `ThinkTexts.OpenedHidden` | `backend/src/llm/llm.service.ts:508-513` | a tag that is never closed hides all that follows it |
| `ThinkTexts.QuietStays` | `backend/src/llm/llm.service.ts:499-513` | a text without `<` is shown as it is |
| `ThinkTexts.UnfinishedHeld` | `backend/src/llm/llm.service.ts:334-335` | while streaming, `<` with at most nine letters or slashes after it is held back at the end, and nothing else |
| `Streams.Flush` | `backend/src/llm/llm.service.ts:332-340` | passes on the visible text beyond what was emitted, holding back an unfinished tag unless it is the last call |
| `Streams.RawChatStream` | `backend/src/llm/llm.service.ts:327-370` | tokens and result are those of the generated text, chunk by chunk; for a response of payloads and other lines the result is the trimmed visible text of the contents in order, or the stripped reasonings where that is blank |
| `Streams.ResponseRead` | `backend/src/llm/llm.service.ts:344-361` | a response generates the contents of the payloads that parse, in order, and as reasoning text their reasonings; the end mark, other lines and payloads that do not parse add nothing |
| `Streams.PiecesJoin` | `backend/src/llm/llm.service.ts:341-361` | the pieces added per chunk are together what the whole response generates, wherever it is cut |
| `Streams.StreamFaithful` | `backend/src/llm/llm.service.ts:327-363` | from the cut response to the tokens: they spell exactly the visible text of the whole |
| `Streams.UnfinishedLineLost` | `backend/src/llm/llm.service.ts:344-346` | a response whose last line has no line end loses exactly that line's content |
| `Streams.ConsumeSSE` | `frontend/src/lib/ai.ts:251-274` | the events handed on are those of the completed frames of all that arrived |
| `Streams.SentIsReceived` | `frontend/src/lib/ai.ts:251-274` | whatever the server sends as frames is received event by event, wherever the stream is cut |
| `Streams.FieldsRead` | `frontend/src/lib/ai.ts:258-264` | what follows `event:` is the name, what follows `data:` is added to the data, also when it is nothing |
| `Streams.SentText` | `backend/src/ai/ai.controller.ts:52-52` | an event is sent as its name line, its data line and an empty line |
| `Splitting.CompleteAppend` | `frontend/src/lib/ai.ts:257-259` | splitting what has arrived and carrying the rest over is splitting the whole |
| `Sections.ParseSections` | `backend/src/ai/structured-chunk.util.ts:112-142` | the loop with its stack and buffer gives `SectionsOf` |
| `Sections.SectionsKeepText` | `backend/src/ai/structured-chunk.util.ts:112-142` | the sections hold every line that is neither blank nor a rule, once and in order, up to white space |
| `Sections.GapExactly` | `backend/src/ai/structured-chunk.util.ts:107-126` | exactly blank lines and rules of three strokes or more are left out |
| `Outline.SectionsOutlined` | `backend/src/ai/structured-chunk.util.ts:130-136` | one section per heading in order, each with the path of exactly the earlier headings that only deeper ones have followed |
| `Outline.OpenRises` | `backend/src/ai/structured-chunk.util.ts:131-134` | the levels of the open headings strictly increase |
| `Outline.ChildExactly` | `backend/src/ai/structured-chunk.util.ts:223-227` | comparing labels finds a child exactly when the next heading is deeper, and then its path is this one's with this one added |
| `Packing.SplitSentences` | `backend/src/ai/structured-chunk.util.ts:145-165` | the nested loops give `Sentences` |
| `Packing.SentencesJoin` | `backend/src/ai/structured-chunk.util.ts:145-165` | the sentences concatenate to the text |
| `Packing.CutExactly` | `backend/src/ai/structured-chunk.util.ts:148-161` | the text is cut exactly after line ends and after stops with all closing marks that follow |
| `Packing.CutsAreEnds` | `backend/src/ai/structured-chunk.util.ts:145-165` | these cuts are the ends of the sentences |
| `Packing.PackSentences` | `backend/src/ai/structured-chunk.util.ts:168-190` | the loop gives `PackedSentences` |
| `Packing.PackedSentencesFit` | `backend/src/ai/structured-chunk.util.ts:168-190` | all characters but white space are kept in order, in trimmed non-empty pieces of at most the size |
| `Packing.PackBlocks` | `backend/src/ai/structured-chunk.util.ts:193-212` | the loop gives `PackedBlocks` |
| `Packing.PackedBlocksFit` | `backend/src/ai/structured-chunk.util.ts:193-212` | the same for blocks, with pieces of at most one and a half times the size |
| `Packing.PackedBlocksTight` | `backend/src/ai/structured-chunk.util.ts:201-209` | neighbouring pieces of uncut blocks never fit the size together |
| `Emission.EmitSections` | `backend/src/ai/structured-chunk.util.ts:241-292` | the loop gives the chunks of `EmitFrom` |
| `Emission.EmitKeepsText` | `backend/src/ai/structured-chunk.util.ts:241-292` | the fresh texts are the texts of the sections that are not skipped, once and in order, up to white space |
| `Emission.ChunksHoldFresh` | `backend/src/ai/structured-chunk.util.ts:282-288` | every chunk emitted is the title, path and name of its group around one of these fresh texts, which after the first of a group stands under the repeated heading |
| `Emission.DroppedOnly` | `backend/src/ai/structured-chunk.util.ts:248-256` | only blank sections and headings without text of their own whose label heads the next path are skipped |
| `Emission.SkippedIsNamed` | `backend/src/ai/structured-chunk.util.ts:252-256` | a skipped heading is on the path of a later chunk, unless that chunk's own heading has an empty label |
| `Emission.RunExactly` | `backend/src/ai/structured-chunk.util.ts:257-272` | a merge takes neighbours of the same parent for as long as they fit and stops only where it must |
| `Emission.BodiesFit` | `backend/src/ai/structured-chunk.util.ts:257-288` | a merged body fits the size; a cut piece is at most one and a half times the size, plus its heading |
| `Emission.ContentIs` | `backend/src/ai/structured-chunk.util.ts:234-239` | a chunk's text is title, path and body, up to white space |
| `Emission.ChunkFramed` | `backend/src/ai/structured-chunk.util.ts:229-290` | every chunk emitted carries its group's label and, joined by " / ", its breadcrumb; a merged run is labelled from first to last if that is short enough, else by its first; without a label there is no path; the text begins with the title line and the path line, and the body follows |
| `Chunker.ChunkStructured` | `backend/src/ai/structured-chunk.util.ts:300-323` | the entry point gives `Structured` |
| `Chunker.DocumentInChunks` | `backend/src/ai/structured-chunk.util.ts:300-307` | the chunks returned for a document with two headings or more hold, group by group, the text of every section not skipped, and all sections together are the document |
| `Chunker.DocumentInParagraphs` | `backend/src/ai/structured-chunk.util.ts:309-322` | the chunks returned otherwise have the packed paragraphs as bodies, and these are the document, within the bound |
| `Chunker.NoStructureExactly` | `backend/src/ai/structured-chunk.util.ts:305-320` | `null` is returned exactly for text with at most one heading, one paragraph and one stop; with two headings the result is never empty |
| `Chunker.ChunksFramed` | `backend/src/ai/structured-chunk.util.ts:300-323` | every chunk returned is framed like that, and one of packed paragraphs by the title alone, without path and label |
| `Chunker.UnixIs` | `backend/src/ai/structured-chunk.util.ts:301-301` | CR LF and CR become one line feed, and nothing else changes |
| `Windows.Chunk` | `backend/src/ai/embedding.service.ts:38-49` | the index loop gives `Chunks` |
| `Windows.ChunksRebuild` | `backend/src/ai/embedding.service.ts:38-49` | the first window and the rest of each later one after its first size minus step characters are the trimmed text |
| `Windows.WindowsPlaced` | `backend/src/ai/embedding.service.ts:44-47` | windows start one step apart, have the full size but for the last, and the last ends with the text |
| `Windows.ChunksPlaced` | `backend/src/ai/embedding.service.ts:38-49` | a blank text has no window, one that fits has one, and else neighbours share `overlap` characters, or all but one |
| `Windows.LineFeedsIs` | `backend/src/ai/embedding.service.ts:39-39` | CR LF becomes one line feed, and nothing else changes |
| `Forest.ReparentAcyclic` | `backend/src/groups/groups.service.ts:199-211` | a new parent closes no cycle exactly when it is neither the department itself nor below it |
| `GroupWalks.DescendantGroupIds` | `backend/src/groups/groups.service.ts:176-196` | exactly what lies below, without duplicates, also when the data holds cycles |
| `GroupWalks.MyScopeGroupIds` | `backend/src/permissions/permission.service.ts:166-188` | exactly the own department and what lies below it, without duplicates |
| `GroupWalks.AncestorGroupIds` | `backend/src/ai/documents.service.ts:99-113` | the department and its ancestors in order, each once, at most 50 |
| `GroupWalks.WalksAgree` | `backend/src/ai/documents.service.ts:99-113` | on any data, cycles included: going up from g finds exactly those from which going down finds g, exactly when the walk up ends or comes back within the cap |
| `GroupWalks.ForestFits` | `backend/src/ai/documents.service.ts:103-103` | in a forest the walk fits exactly when the chain has at most 50 departments |
| `GroupWalks.ChainExactly` | `backend/src/ai/documents.service.ts:103-103` | in a chain of departments the walk up from the last one finds the first one, and everything above, exactly when they are at most 50; with 51 it misses it |
| `Departments.GroupsService.NextSortOrder` | `backend/src/groups/groups.service.ts:167-173` | one more than the largest position among the siblings, 0 exactly without any |
| `Departments.GroupsService.AssertValidParent` | `backend/src/groups/groups.service.ts:199-211` | accepts exactly the existing departments under which the tree stays a forest, and says which of the three reasons a refusal has |
| `Departments.GroupsService.Create` | `backend/src/groups/groups.service.ts:225-236` | the new row, last among its siblings, in a forest without dangling parents; or nothing changed |
| `Departments.GroupsService.Update` | `backend/src/groups/groups.service.ts:238-260` | a given parent is accepted exactly when the result is a forest; the new row column by column, all others unchanged |
| `Departments.GroupsService.Remove` | `backend/src/groups/groups.service.ts:289-296` | exactly the department and what lies below it are gone, no parent dangles, and the number is right |
| `Departments.GroupsService.Reorder` | `backend/src/groups/groups.service.ts:266-283` | the sibling list with two neighbours swapped and numbered from 0; nothing at the ends |
| `Departments.RenumberedList` | `backend/src/groups/groups.service.ts:278-281` | after renumbering, listing the siblings gives the new order |
| `Departments.GroupsService.ImportRow` | `backend/src/groups/groups.service.ts:350-366` | the first pass over a row: some department of that name gets the columns that are given, or a new one is created when there is none |
| `Departments.GroupsService.HangRow` | `backend/src/groups/groups.service.ts:373-398` | the second pass over a row: refused exactly when it names itself, no department has the name, or the one found is the department itself or lies under it; else hung there and nothing else changed |
| `Departments.GroupsService.ImportRows` | `backend/src/groups/groups.service.ts:321-400` | the whole import as its two passes row by row; it keeps a forest, its counts are right, it reports exactly the rows without a name and the refused ones, and every department whose last row is not reported hangs where that row says |
| `Queue.StepKeeps` | `backend/src/llm/llm-queue.ts:39-143` | every event keeps: each task in exactly one of running, waiting and settled; tasks wait only at the limit; no waiting task has been overtaken by a later one of no higher priority |
| `Queue.RunKeeps` | `backend/src/llm/llm-queue.ts:39-143` | so after every possible run |
| `Queue.StartsBelowLimit` | `backend/src/llm/llm-queue.ts:67-71` | after a start the number of running tasks is within the limit |
| `Queue.RunWithinLimits` | `backend/src/llm/llm-queue.ts:67-76` | with one configuration, running and waiting stay within their limits over every run |
| `Queue.SettledOnce` | `backend/src/llm/llm-queue.ts:107-142` | what is settled stays as it is, and what has started only ends by being done |
| `Queue.PositionIsRank` | `backend/src/llm/llm-queue.ts:95-97` | the number of waiters ahead is the place in the sorted list |
| `Queue.StartsInTurn` | `backend/src/llm/llm-queue.ts:107-142` | with one configuration, no later arrival of higher priority and no time-out, a waiter at position p has started by the p-th completion |
| `Queue.LlmQueue.PumpWaiters` | `backend/src/llm/llm-queue.ts:120-142` | starts the first waiters in order until the limit or the last |
| `Queue.LlmQueue.SetConfig` | `backend/src/llm/llm-queue.ts:49-52` | the configuration step, invariant kept |
| `Queue.LlmQueue.Enqueue` | `backend/src/llm/llm-queue.ts:67-105` | starts, refuses or queues, and the position told is the true rank |
| `Queue.LlmQueue.TaskEnded` | `backend/src/llm/llm-queue.ts:107-113` | the completion step |
| `Queue.LlmQueue.TimerFired` | `backend/src/llm/llm-queue.ts:86-94` | the time-out step: the waiter leaves and is settled, or nothing happens |
| `RecordStore.RunKeeps` | `backend/src/records/records.service.ts:323-362` | over every interleaving: an id is never both live and in the trash, each history entry starts from what the one before left, the last one left the current data |
| `RecordStore.OneWinner` | `backend/src/records/records.service.ts:341-347` | no version of a record is updated twice, however reads and commits interleave |
| `RecordStore.RunIsAtomic` | `backend/src/records/records.service.ts:323-362` | no lost update: a run leaves what its successful operations leave when each happens at once at its commit |
| `RecordStore.CommitsExactly` | `backend/src/records/records.service.ts:341-347` | an update that passed its read goes through exactly when no other update or removal of the record came between |
| `RecordStore.NoVersionFromBefore` | `backend/src/records/records.service.ts:754-766` | after a removal, also when restored, no version from before it is accepted again |
| `RecordStore.NothingAfterPurge` | `backend/src/records/records.service.ts:786-795` | a purged record is never written again |
| `RecordStore.RecordsService.BeginUpdate` | `backend/src/records/records.service.ts:323-328` | missing and outdated records are refused, else the data read is that of the expected version |
| `RecordStore.RecordsService.CommitUpdate` | `backend/src/records/records.service.ts:334-357` | data, version and history change together where id and version match, else nothing |
| `RecordStore.RecordsService.RemoveRecord` | `backend/src/records/records.service.ts:646-683` | the whole record moves to the trash |
| `RecordStore.RecordsService.RestoreTrash` | `backend/src/records/records.service.ts:740-784` | it comes back with data and history and the next version |
| `RecordStore.RecordsService.PurgeTrash` | `backend/src/records/records.service.ts:786-795` | it is gone |
| `Csv.ParseCsv` | `frontend/src/lib/csv.ts:2-27` | the character loop gives `Parsed`: the filled rows of the scan |
| `Csv.GridRoundTrip` | `frontend/src/lib/csv.ts:2-27` | a grid of any texts, written by section 2 of RFC 4180, parses back to its rows, all-empty ones excepted |
| `Csv.DecodeExactly` | `backend/src/records/records.service.ts:916-936` | the formula guard is undone exactly for texts that are not a quote before a formula lead themselves |
| `Csv.ExportRoundTrip` | `backend/src/records/records.service.ts:846-866` | parsing an export gives every cell, guarded, in its place |
| `Csv.ExportDecodesExactly` | `backend/src/records/records.service.ts:846-866` | parsed and decoded it is the exported table, exactly when no cell looks guarded from the start |
| `Csv.ExportIsSafe` | `backend/src/records/records.service.ts:922-936` | no cell read back from an export starts with a formula lead: those that would have a quote in front, the others are as given |
| `Csv.WrittenPlainly` | `backend/src/records/records.service.ts:930-936` | a cell is quoted exactly when it holds a quote, a comma or a line end |
| `Csv.FileLayout` | `backend/src/records/records.service.ts:846-866` | rows are written with CR LF between them and cells with commas |
| `Csv.ExportStarts` | `backend/src/records/records.service.ts:846-866` | the export begins with a byte order mark and the header, and each row with the id of its record |
| `Permissions.GetEffectivePermission` | `backend/src/permissions/permission.service.ts:46-92` | each right is there exactly when some permission that applies grants it, with the administrator, owner and viewer rules |
| `Permissions.RightsExactly` | `backend/src/permissions/permission.service.ts:46-92` | all rights for administrators and the owner; else exactly those granted, of which a viewer only has the view |
| `Permissions.VisibleAppIds` | `backend/src/permissions/permission.service.ts:283-307` | all apps for an administrator; otherwise the loop gives the user's own apps and those shared for viewing with everyone, with the user, or with its department, the reserved id standing in where there is none |
| `Permissions.VisibleExactly` | `backend/src/permissions/permission.service.ts:283-307` | the list query holds an app exactly when the effective right to view does, unless the user has no department, the app is shared with the reserved id, and nothing else grants the view; then it is listed without the right |
| `Permissions.ListedButNotViewable` | `backend/src/permissions/permission.service.ts:295-304` | a concrete world where the list holds an app the user may not view |
| `Permissions.OrgScopedUserIds` | `backend/src/permissions/permission.service.ts:142-153` | the user and exactly the users whose department is the user's or below it |
| `Permissions.AllowedCreatorIds` | `backend/src/permissions/permission.service.ts:236-254` | whose records may be reached, by scope |
| `Permissions.RecordFieldScope` | `backend/src/permissions/permission.service.ts:262-277` | the employee field and the users the reader answers for |
| `Permissions.ShowRecord` | `backend/src/records/records.controller.ts:147-154` | the single-record route shows a record exactly when `RouteShows` |
| `Permissions.ReachedExactly` | `backend/src/permissions/permission.service.ts:236-254` | a record of this creator may be reached exactly by administrators, owner and managers of the app, and by those whom the scope for the purpose lets through |
| `Permissions.ScopesApart` | `backend/src/permissions/permission.service.ts:248-248` | the view scope does not decide who may edit, nor the edit scope who may view |
| `Permissions.RouteExactly` | `backend/src/records/records.controller.ts:147-154` | the route shows a record exactly to administrators, to the owner, and to viewers who manage the app or pass both its view scope and its employee rule |
| `Search.CandidateRows` | `backend/src/ai/ai.service.ts:522-545` | exactly the rows of visible apps and documents that the options select |
| `Search.CandidateExactly` | `backend/src/ai/ai.service.ts:522-545` | a row is searched exactly if its kind is asked for and its app or document is visible, or is the one asked for |
| `Search.RestrictedAppCreators` | `backend/src/ai/ai.service.ts:552-576` | for each visible app of narrow scope that is not the user's, whose records may be shown |
| `Search.RecordOkSet` | `backend/src/ai/ai.service.ts:578-595` | of the restricted rows, those whose record has an allowed creator |
| `Search.FieldScopeBlockedRecordIds` | `backend/src/ai/ai.service.ts:602-630` | the rows whose record names an employee the user does not answer for |
| `Search.PickHits` | `backend/src/ai/ai.service.ts:149-182` | the first k different hits that pass both filters |
| `Search.HitsExactly` | `backend/src/ai/ai.service.ts:149-182` | no two hits are of one record or document, and every passing row has a hit of the same one unless there are k |
| `Search.PassesExactly` | `backend/src/ai/ai.service.ts:578-630` | for a visible app the batch filters let a row pass only if the route shows its record, exactly unless the two visibility rules differ for the app, and always if the route does and the user has no right to manage an app that is not theirs |
| `Search.SearchRefinesRoute` | `backend/src/ai/ai.service.ts:130-185` | every existing record returned is one the single-record route shows to the same user, exactly unless the two visibility rules differ for its app |
| `Definitions.SlugCode` | `backend/src/common/app-definition.util.ts:65-73` | terminates, and gives the base code or its first free numbered form |
| `Definitions.Pigeonhole` | `backend/src/common/app-definition.util.ts:70-71` | no more numbered codes are taken than there are codes, so the loop ends |
| `Definitions.SanitizeDefinition` | `backend/src/common/app-definition.util.ts:82-169` | the loops and the rewritten options give `Sanitize` |
| `CleanDefinitions.SanitizeSound` | `backend/src/common/app-definition.util.ts:82-169` | for every input: unique identifier codes, choices with options, a status field whose options are the statuses, actions and targets that name existing items |
| `CleanDefinitions.SanitizeTwice` | `backend/src/common/app-definition.util.ts:82-169` | cleaning up again changes nothing exactly when every code has at most 100 characters or is the first free numbered form of its first 100 |
| `CleanDefinitions.SoundStaysExactly` | `backend/src/common/app-definition.util.ts:82-169` | a sound definition from elsewhere comes back unchanged exactly when in addition its status field and targets are named by at most 100 characters |
| `CleanDefinitions.LongCodeIsCut` | `backend/src/common/app-definition.util.ts:65-73` | a raw definition, with a code of a hundred digits, whose clean form is changed by cleaning up again |
| `DefinitionValues.FieldAt` | `backend/src/common/app-definition.util.ts:91-119` | field by field, in order: name, code, kind, whether it is required and settings are those of the raw field, cleaned; fields without a name are left out |
| `DefinitionValues.ProcessTaken` | `backend/src/common/app-definition.util.ts:132-148` | the process is taken over exactly if its status field is of a fitting kind and there are statuses: the given ones, which win over the options of the field, or else those; the field gets them as its options |
| `DefinitionValues.NoProcess` | `backend/src/common/app-definition.util.ts:132-148` | without such a field there is no process and no field changes |
| `DefinitionValues.RestTaken` | `backend/src/common/app-definition.util.ts:121-166` | name, description, scopes and actions, each action with its own id or a new one and a target only if that field exists |
| `Throttle.AuthService.LogIn` | `backend/src/auth/auth.service.ts:34-48` | a login moves its own key's row one step and leaves all others |
| `Throttle.AuthService.RecordFailure` | `backend/src/auth/auth.service.ts:101-118` | the counted row, and whether it locks |
| `Throttle.LockedChecksNothing` | `backend/src/auth/auth.service.ts:34-48` | over a whole run without a login: no later password check happens before a lock that an earlier failure left has run out |
| `Throttle.RunLinked` | `backend/src/auth/auth.service.ts:34-118` | in a run without a login, each failed check waits out the lock of the one before and is counted with it exactly inside the window |
| `Throttle.WindowBound` | `backend/src/auth/auth.service.ts:101-118` | then one counting window holds at most max + floor(window / lockout) failed checks |
| `Throttle.WindowBoundReached` | `backend/src/auth/auth.service.ts:101-118` | under every policy a run has that many failed checks in one window |
| `Throttle.PeriodBound` | `backend/src/auth/auth.service.ts:101-118` | and any period as long as the window at most twice as many |
| `Throttle.LoginForgets` | `backend/src/auth/auth.service.ts:34-48` | what follows a successful login goes as for a key that has never failed |
| `Throttle.RightPassword` | `backend/src/auth/auth.service.ts:34-48` | a right password logs in exactly when the last failure left no lock or one that has run out |
| `RateWindow.PublicFormsService.AssertSubmissionRate` | `backend/src/public-forms/public-forms.service.ts:81-100` | accepts by the recent times of the key, and the map afterwards, pruning included |
| `RateWindow.PublicFormsService.Prune` | `backend/src/public-forms/public-forms.service.ts:95-99` | drops exactly the entries without a recent time |
| `RateWindow.PruningDecidesNothing` | `backend/src/public-forms/public-forms.service.ts:81-100` | on a clock that does not go back, the pruned map decides as an unpruned log of everything accepted |
| `RateWindow.AtMostLimitAMinute` | `backend/src/public-forms/public-forms.service.ts:87-93` | the service, with its pruned map, accepts no more than the limit for a key in any period of less than a minute |
| `RateWindow.AcceptedExactly` | `backend/src/public-forms/public-forms.service.ts:81-93` | over every run a submission is accepted exactly when fewer than the limit were accepted for its key, or the one that many places back is a minute old |
| `RateWindow.StaysSmall` | `backend/src/public-forms/public-forms.service.ts:94-99` | more than 10000 entries are kept only if each holds a time of the last minute |
| `RateWindow.LimitIs` | `backend/src/public-forms/public-forms.service.ts:81-86` | the limit is the configured one or the nearest from 1 to 120 |
| `StripBlocks.StripTag` | `backend/src/ai/document-extract.util.ts:32-49` | the loop terminates and gives `Strip` |
| `StripBlocks.FoundExactly` | `backend/src/ai/document-extract.util.ts:39-44` | searching only for first occurrences finds a block exactly when there is one |
| `StripBlocks.StripKeepsRest` | `backend/src/ai/document-extract.util.ts:32-49` | kept parts and blocks in turn are the text; the result is the kept parts with a space for each block |
| `StripBlocks.NothingLeft` | `backend/src/ai/document-extract.util.ts:32-49` | the result holds no opening tag followed by a matching closing tag and a bracket |
| `StripBlocks.UnchangedExactly` | `backend/src/ai/document-extract.util.ts:32-49` | a text is left alone exactly when it holds no block |
| `StripBlocks.StripTwice` | `backend/src/ai/document-extract.util.ts:32-49` | stripping twice is stripping once |
| `StripBlocks.NeitherIsLeft` | `backend/src/ai/document-extract.util.ts:65-66` | after both removals neither kind is left: removing one never makes another |
| `StripBlocks.KeptExactly` | `backend/src/ai/document-extract.util.ts:32-49` | told by the tags themselves: a text is left alone exactly when no opening tag is followed by its closing tag and a bracket |
| `StripBlocks.NoScriptLeft` | `backend/src/ai/document-extract.util.ts:65-66` | after both removals no script and no style tag is left with its closing tag and a bracket after it |

## Left out

Numbers and texts

- Binary rounding, the precision limit and negative zero: numbers are exact reals with two infinities and
  NaN, rounded to six decimals as the source does.
- `Number(...)` and `String(...)` of texts, lists and objects, and `JSON.parse`, are parameters; every
  result holds for whatever they compute.
- Names that the host's objects inherit from their prototype are not looked up: a record is a finite map.
- Characters are Unicode scalar values, the source counts UTF-16 units. Lower case is that of ASCII, so it
  keeps lengths.

Streams

- ThinkFilter.FaithfulExactly: does not cover text that mixes kinds of thinking tags, because closing one
  kind can then take back what another had shown, nor text in which a joined tag of another kind is closed
  and removed as well; for these the condition is that of `ThinkFilter.FaithfulByPrefixes`, on the flushes.
- Streams.RawChatStream: does not model a response that cannot be read in parts, nor errors of the
  connection; the decoder's handling of split characters is assumed.

Chunks

- Sections.ParseSections: does not model the heading patterns; which trimmed line is a heading, with which
  level and label, is a parameter.
- Windows.Chunk: does not model sizes below 1 or negative overlaps; `llm.service.ts:94-95` clamps the
  settings to at least 100 and 0.
- Chunks of government documents, embedding and ranking: the parsers and the vectors are not part of this
  model.

Departments

- Departments.GroupsService.Update: does not model two edits at the same time; check and write are one
  step.
- Departments.GroupsService.ImportRows: does not model errors of the database, nor several departments
  of one name beyond "some department of that name is found".
- Members and searching departments would only add easy members.

Queue

- Queue.LlmQueue.Enqueue: does not model callbacks that call the queue again, nor tasks that throw before
  they return a promise.

Records

- RecordStore.RecordsService.RemoveRecord: does not model the gap between reading the record and the
  transaction; removal and restoring are one step each.
- RecordStore.RecordsService.AddRecord: does not model the generation of ids; a new id is one never
  used before.
- Comments, attachments, notifications, approvers and indexing of a record; the check of approvers is
  the step that abandons an update.
- Completion.ComputeFields: does not model the SQL of the counters; they are a map that every creation
  takes and gives back.
- Completion.NumbersNeverRepeat: does not cover numbers that users fill in, nor a prefix that is changed
  between two creations.

Search

- Search.PickHits: does not model scoring, the cut to sixty rows and snippets; any order and choice of the
  candidates is allowed, and reads happen at one moment. Rows of the index carry the app of their record,
  as the indexer writes them (`embedding.service.ts:86-92`, `111-113`).
- Search.SearchRefinesRoute: does not cover an app whose own id is the reserved one; ids of apps are generated.
- Which documents a user sees is a parameter of the search, apart from the walk over departments.

Definitions

- Definitions.SanitizeDefinition: does not model the reading of properties from JSON; a property that is
  absent is `None`, a list of settings counts as an empty object.

Limits

- Throttle.WindowBound: does not cover concurrent logins of one key, whose reads and writes of the row can
  interleave, nor a policy that changes during the run.
- RateWindow.AtMostLimitAMinute: does not model a limit that is not a whole number.
- Passwords, tokens, cookies, HTTP, the file system, templates, charts, dashboards and backups.

HTML

- StripBlocks.NothingLeft: does not cover tags with a space in their name, which the source never uses.
- Entity decoding and the removal of other tags.
