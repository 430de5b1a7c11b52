# SFZ front end of sfz-to-wwise, modelled in Dafny

The program reads an SFZ instrument file (headers such as `<global>`,
`<group>`, `<region>` and `name=value` opcodes) with a parser generated by
jison from a grammar table. The grammar's action code declares three property
bags (`global`, `group`, `region`) and a list of region records, and on each
scope header it flushes the merge of the bags into that list. This project
models that table and that action code:

- `wrappers.dfy`: `Option` and `Result`.
- `expressions.dfy`: the value union `number | string | boolean` as `Value`,
  and the expressions the grammar yields (`HeaderExpr`, `PropertyExpr`).
- `lexicon.dfy`: the character classes, the macros `name`, `int` and `frac`,
  and one predicate per lexer rule, each read on one whole lexeme. The rules
  sit in an ordered table, and `Classify` returns the first rule that matches,
  as jison's default lexer does. The FILENAME entry is the rule as written;
  the rule its authors evidently meant is kept beside it (see Findings).
- `grammar.dfy`: a recogniser for the BNF over a token sequence. It turns the
  tokens into header and property expressions, or names the token that cannot
  continue the input. It is proved against a position-by-position description
  of the language.
- `scopes.dfy`: the resolver's behaviour as functions on its state:
  `Object.assign`, the merge, `saveRegion`, `setProp`, `setHeader`, and their
  fold over an expression sequence.
- `resolver.dfy`: the class `ScopeResolver`. Its map fields and record list
  are updated in place by `SaveRegion`, `SetProp` and `SetHeader`, and each
  method is proved to match the `Scopes` function of the same name.
- `pipeline.dfy`: grammar and resolver as wired in the source. Only the
  HEADER reduction calls into the resolver, and each reduction runs the
  action code afresh, on empty scopes.

The model follows the code where it departs from usual SFZ practice:

- The merge is `Object.assign({}, region, group, global)`, so `global`
  overrides `group` and `group` overrides `region`.
- `setProp` tests `region` first, and `region` is always an object. So every
  property lands in `region`, and `group` and `global` stay empty for good.
- `<control>` and any other unknown header are ignored.
- Nothing is flushed at the end of the input.
- Header lexemes keep their angle brackets.
- Values reach the expressions as the text they matched. No grammar rule
  converts them, and jison's default action passes the first symbol's value up.
- A property named `__proto__` is not stored: on a plain object that name is
  an inherited accessor whose setter ignores numbers, strings and booleans.
- The property action that would call `setProp` is commented out, and the
  action code, variables included, runs afresh on each reduction. A HEADER
  reduction therefore meets empty scopes and flushes at most one empty record,
  which is dropped when the reduction returns
  (`Pipeline.AsWiredFlushesEmptyRecords`).
- The PATH class excludes `/`, so a value such as `Samples/` is no PATH
  lexeme.

## Model

| member | source | states |
|---|---|---|
| `Lexicon.FirstMatch` | index.ts:20-30 | the index returned is that of a rule that matches and no earlier rule matches; no index exactly when no rule of the table matches |
| `Lexicon.Classify` | index.ts:20-30 | the rule returned is in the table and matches the lexeme; none exactly when no rule matches (a lexical error) |
| `Lexicon.ClassifyFindsTheRule` | index.ts:20-30 | every lexeme a rule describes is classified as that rule, except a blank line described by PATH, which whitespace claims first |
| `Lexicon.RulesAreDisjoint` | index.ts:20-30 | no lexeme is described by two rules of the table, except whitespace and PATH; table order decides nothing else |
| `Lexicon.BlankLineIsSkipped` | index.ts:21-29 | whitespace ending in a newline fits PATH too, yet is classified as skipped whitespace |
| `Lexicon.NumberEnds` | index.ts:14-15 | a NUMBER lexeme starts with a digit or `-` and ends with a digit |
| `Lexicon.NumberHasNoLeadingZero` | index.ts:14 | a `0` that starts the integer part (signed or not) is followed only by the fraction's `.` |
| `Lexicon.NumberSamples` | index.ts:23 | `-3.5`, `36`, `0`, `-0.25` are NUMBER lexemes; `05`, `1.`, `.5`, `-` are not |
| `Lexicon.HeaderLexeme` | index.ts:24 | `<n>` is a HEADER lexeme exactly when `n` is a name, and is then classified HEADER |
| `Lexicon.PropertyLexeme` | index.ts:25 | `n=` is a PROPERTY lexeme exactly when `n` is a name, and is then classified PROPERTY |
| `Lexicon.BooleanLexemes` | index.ts:25-27 | `true` and `false` are classified TRUE and FALSE, not as anything earlier in the table |
| `Lexicon.FilenameAsWrittenTakesAnySeparator` | index.ts:28 | the file-name rule as written takes `kick_wav`, which the intended rule refuses, and the classifier returns FILENAME for it |
| `Lexicon.FilenameIsStemWithExtension` | index.ts:28 | the intended file-name rule takes exactly a non-empty stem of allowed characters followed by `.wav` |
| `Lexicon.FilenameIsFilenameAsWritten` | index.ts:28 | every intended file name is also taken by the rule as written |
| `Lexicon.IntendedFilenameIsClassified` | index.ts:20-30 | a name with a real `.wav` extension is classified FILENAME by the table as written |
| `Grammar.SingleTokenItem` | index.ts:38-46 | a COMMENT or HEADER item leaves the pairing of properties and values to the tokens after it |
| `Grammar.PropertyItem` | index.ts:51-59 | a PROPERTY item is well formed exactly when a value token follows it and the rest is well formed |
| `Grammar.ParseFromAccepts` | index.ts:38-60 | from an item boundary, parsing succeeds exactly when every PROPERTY is followed by a value and every value follows a PROPERTY |
| `Grammar.ParseAccepts` | index.ts:38-60 | the parser accepts exactly the non-empty token sequences where each PROPERTY is directly followed by a value token and each value token directly follows a PROPERTY |
| `Grammar.ParseFromFailsAtFirstViolation` | index.ts:38-60 | from an item boundary, a rejected token is the first that breaks the pairing; a premature end means no token breaks it and the last is a PROPERTY |
| `Grammar.ParseFailsAtFirstViolation` | index.ts:38-60 | a rejection names the first token that breaks the pairing; an end-of-input error means empty input, or a last PROPERTY with nothing broken before it |
| `Grammar.ParseFromYields` | index.ts:38-61 | from position `i`, the expressions are one per HEADER and PROPERTY token, and the header expressions are the HEADER tokens in order |
| `Grammar.ParseYields` | index.ts:38-61 | an accepted input yields one expression per HEADER and per PROPERTY token, with the HEADER lexemes in input order |
| `Grammar.ItemCountStep` | index.ts:38-46 | the first token of a stretch adds one expression when it is a HEADER or PROPERTY and none otherwise |
| `Grammar.ParseFromPlaces` | index.ts:38-61 | from position `i`, the HEADER or PROPERTY token at `j` yields the expression whose index counts the HEADER and PROPERTY tokens between them: the header lexeme, or the name and the value token that follows |
| `Grammar.ParsePlaces` | index.ts:38-61 | in an accepted input, expressions follow token order with comments dropped: the HEADER or PROPERTY token at `j` yields the expression at the index counting those before it, holding its header lexeme, or its name and its value token |
| `Grammar.LexedKindsFit` | index.ts:20-30 | a token whose kind is the one its lexeme is classified as holds a HEADER lexeme when it is a HEADER and a PROPERTY lexeme when it is a PROPERTY |
| `Grammar.ParseFromShapes` | index.ts:56-61 | from position `i`, tokens whose HEADER and PROPERTY lexemes fit their kind yield headers of the form `<name>`, property keys that are names and text values |
| `Grammar.ParseShapes` | index.ts:56-61 | when each token's kind is the one its lexeme is classified as, every header expression is `<name>`, every key is a name, and every value is text |
| `Grammar.PropertyKeyRoundTrip` | index.ts:56 | dropping the last character of the lexeme `n=` gives back the name `n` |
| `Grammar.ParseSamples` | index.ts:38-61 | `<region> sample= kick.wav` yields a header and the property `sample`; `foo=` alone, empty input, a value after a header, and two PROPERTY tokens in a row are rejected at the stated place |
| `Scopes.AssignLastWins` | index.ts:65 | `Object.assign` gives the keys of the target and of every source; a key takes the value of the last source holding it, else the target's |
| `Scopes.MergePrecedence` | index.ts:65 | the flushed record holds exactly the keys of `region`, `group` and `global`; `global` overrides `group`, which overrides `region` |
| `Scopes.MergeOfRegionAlone` | index.ts:65 | with `group` and `global` empty, the flushed record is the `region` scope |
| `Scopes.RunAppendsOnePerScopeHeader` | index.ts:89-106 | `regions` only grows, by exactly one record per `<global>`, `<group>` or `<region>` header; properties and other headers add none |
| `Scopes.OuterScopesStayEmpty` | index.ts:75-86 | once empty, `global` and `group` stay empty whatever expressions follow, because `setProp` always writes `region` |
| `Scopes.StepKeepsKeysWithin` | index.ts:64-106 | one header or property step brings in no key beyond the property's own |
| `Scopes.RunKeepsKeysWithin` | index.ts:64-106 | if the scopes, the records and every written property key lie in a key set, they still do after any run |
| `Scopes.RecordsHoldOnlyWrittenKeys` | index.ts:64-106 | starting empty, every flushed record's keys are keys some property expression wrote |
| `Scopes.SetPropWritesRegion` | index.ts:75-87 | a property write changes only `region`: the name takes the value unless it is `__proto__`, which changes nothing, and every other key keeps its value |
| `Scopes.LastWriteWins` | index.ts:78-80 | writing a property twice leaves the second value (for `__proto__`, neither write) |
| `Scopes.ControlGlobalGroupRegionTrace` | index.ts:64-106 | for a control, global, group, region file, each block's property is flushed as a record of its own, and the region's own properties are never flushed |
| `Resolver.ScopeResolver.constructor` | index.ts:70-74 | all three scopes and the record list start empty |
| `Resolver.ScopeResolver.SaveRegion` | index.ts:64-68 | appends the merged record, empties `region`, leaves `group` and `global` |
| `Resolver.ScopeResolver.SetProp` | index.ts:75-87 | sets `region[name]` to the value, except that a `__proto__` write changes nothing, and leaves `group`, `global` and the records unchanged |
| `Resolver.ScopeResolver.SetHeader` | index.ts:89-106 | `<global>`, `<group>` and `<region>` each append one merged record and empty `region`; `<global>` also empties `global` and `group`, `<group>` empties `group` and keeps `global`, and `<region>` keeps both; any other header changes nothing |
| `Resolver.ScopeResolver.Process` | index.ts:56-61 | feeding expressions one by one to a resolver whose state persists leaves the state the fold `Scopes.Run` describes |
| `Pipeline.ReductionsFollowHeaders` | index.ts:61-106 | the `k`-th live reduction is the `k`-th header acting on empty scopes; it leaves every scope empty, and one empty record exactly for `<global>`, `<group>` or `<region>` |
| `Pipeline.AsWiredFlushesEmptyRecords` | index.ts:56-106 | as wired, an accepted input runs one live reduction per HEADER token, in order; each leaves empty scopes, and one empty record for `<global>`, `<group>` or `<region>` and none for any other header |

## Left out

- `main` (index.ts:125-165): reading the file, the WAAPI WebSocket
  connection, the remote import call, console output and `process.exit` are
  I/O and network code.
- The `Import` interface (index.ts:110-123) declares a type and holds no logic.
- The `operators` table (index.ts:33-35) is not used by the grammar.
- The jison generator itself is foreign code, and several of its parts are
  not modelled. These are the LALR table construction and its resolution of
  the grammar's shift/reduce ambiguity. The model recognises the grammar's
  language instead.
- The scan of raw text into lexemes is not modelled either. This covers the
  cursor, the `\b` look-ahead in NUMBER, TRUE, FALSE and the `name` macro
  (and so in HEADER and PROPERTY),
  backtracking, and a greedy FILENAME match running across lines. Each rule is
  modelled as a predicate on a lexeme already cut out.
- The lexer's error position and message are left out. `Classify` only
  reports that no rule matches.
- The `yyYext = [$2]` action (index.ts:57) and the commented-out logging
  (index.ts:76, index.ts:90) have no observable effect.
- `Value.Num` carries a `real`. The 64-bit floating-point rounding of a
  JavaScript number is not modelled, because nothing computes with values.
  Nothing in the source converts a lexeme to a number or a boolean.
- `regions` is never returned by the parser; the model exposes it as state.
- `Pipeline.AsWired`: two things rest on the jison generator, which is not
  part of this model. It splices the action code into the function that
  performs one reduction, so the scopes and `regions` are new at each
  reduction. The model also returns only the parse error for a rejected
  input; the HEADER reductions that ran before the error changed nothing
  observable.
- `Scopes.Run` and `Resolver.ScopeResolver.Process` describe the resolver
  with state that persists from call to call, as if both grammar actions were
  live and the variables outlived a reduction. The program as built does
  neither.
- The program does not do the following usual SFZ behaviours, so the model
  does not either:
  - a separate `control` scope;
  - a flush at the end of the input;
  - an error for a property before any header;
  - filtering out records without a `sample` key.

## Findings

| source | as written | input that shows it | evidently intended | confidence | as-written member | corrected member |
|---|---|---|---|---|---|---|
| index.ts:28 | the FILENAME rule `[^<>:"/\\|?*]+.wav` leaves its `.` unescaped, so any character but a line terminator may stand before `wav` | `kick_wav` is taken as a FILENAME lexeme | a literal `.wav` extension (`\.wav`); `Classify` keeps the rule as written | high (not executed) | `Lexicon.FilenameAsWrittenTakesAnySeparator` | `Lexicon.FilenameIsStemWithExtension` |
