# Heavy JS Obfuscator — a verified model of its obfuscation passes

The repository ships three variants of a regex-driven JavaScript obfuscator:

- `obfuscator.js` — `obfuscate(code, options)`: a configurable pipeline. It shields comments and
  string literals behind numbered placeholder comments (`preserveTokens`). It replaces each literal by
  a reference into an array of unquoted base64 entries (`encodeStrings`), rewrites small functions as `switch` state machines
  (`flattenControlFlow`), splices dead blocks between lines (`injectDeadCode`), renames declared
  identifiers to fresh names that are unique within the call (`mangleIdentifiers`), prepends a
  debugger trap and a domain lock, swaps the placeholders back (`restoreTokens`) and puts a header
  comment listing the options in front (`generateHeaderComment`).
- `public/script.js` — `obfuscateCode(code, level)`: a header naming the level
  (`formatLevelName`). Then, for each pass the level selects, the pass's output on the ORIGINAL code
  is appended. The passes are `mangleVariables`, `encodeStrings` (UTF-8 via `safeBtoa`, optionally
  reversed), `flattenControlFlow`, `addDeadCode`/`generateDeadCode` and `addDebugProtection`.
- `script.js` — `obfuscateCode()`: the trimmed input runs through `obfuscateStrings`,
  `mangleVariables` and `flattenControlFlow`, each on the same code. The outputs are joined under a
  two-line banner and trimmed again. An empty input and a throwing pass are reported instead.

## How the model is built

- **Text.** Text is `string`. `btoa`/`atob` are base64 over byte strings (RFC 4648, section 4). The
  bytes `safeBtoa` encodes are the UTF-8 form of the UTF-16 code units (RFC 3629, section 3).
- **Patterns.** Each regular expression is a deterministic matcher in `Lexer`: string literal,
  comment, placeholder, declaration and function definition. `String.prototype.replace` with the
  global flag is one left-to-right search (`Lexer.Scan`) that yields stepped-over characters and
  matches. `Lexer.Fill` puts the callback's replacements in place of the matches.
- **Randomness.** Every `Math.random()` call is one number taken from an oracle sequence `seq<nat>`,
  consumed left to right. Running out of numbers is an explicit `None`. That outcome also stands for
  the `do ... while` that can never end at level `low`.
- **Exceptions.** A thrown exception is `Results.Result.Throw`: `btoa`'s `InvalidCharacterError` and
  `encodeURIComponent`'s `URIError`.
- **Imperative code.** Code that builds text with `+=`, loops, pushes into arrays or splices lines
  is a Dafny `method` with a loop. Each such method is proved equal to a specification function.
  The properties are then proved about that function.
- **Emitted switch.** The flatteners' `switch` is given a meaning in `Dispatch`: which arm
  `switch(_0xstate)` selects and which statements the `while(true)` loop runs. This is what lets
  "runs the statements in order" be stated.

Points of the code the model keeps as written:

- **Pass order.** `obfuscate` (obfuscator.js:4-40) runs the string array, control flow, dead
  code, mangling, debug guard, domain lock, then restoring, and puts the header in front.
- **The shielded text.** The text `preserveTokens` produces is never handed to the passes: they all
  work on the original code (`Obfuscator.PreserveFlowOnlyRestores`).
- **Mangling.** Mangling runs whatever the options say, so "every flag off" is not "identity plus
  header" (`Obfuscator.ManglingAlwaysRuns`). It is that only when no declared name has three
  characters or more (`Obfuscator.AllOffShortNames`).
- **Name uniqueness.** Only `obfuscator.js` keeps generated names unique. The other two manglers can
  hand out the same name twice (`Renamer.SameDrawsSameName`).
- **String array.** The entries of `_0xstrings` are emitted without quotes: each is a bare
  base64 token between `[`, `,` and `]` (`StringArray.EntriesUnquoted`). The emitted `_0xdecode` is
  never called, because every literal becomes `_0xstrings[i]` and not `_0xdecode(_0xstrings[i])`.
  The decode-and-restore round trip of `StringArray.EncodedStringsDecode` is the model's own inverse
  of the pass, not something the emitted program does.
- **Restoring.** Restoring gives the fallback for an index past the end of the table and for an
  empty entry (`table[i] || fallback`).

## Model

| member | source | states |
|---|---|---|
| Text.Trim | script.js:34 | the result is the input with white space cut from both ends only; it neither starts nor ends with white space; it is empty exactly when the input is all white space |
| Text.Split | obfuscator.js:200 | `split` yields at least one part and no part contains the separator |
| Text.JoinSplit | obfuscator.js:200-214 | joining the parts of `split(c)` with `c` gives the text back |
| Text.SplitJoin | obfuscator.js:98-104 | splitting on `c` the join of parts free of `c` gives the parts back |
| Text.SplitLength | obfuscator.js:200 | `split` yields one part more than there are separators |
| Text.ReverseReverse | obfuscator.js:100-112 | reversing twice is the identity, which the rotated entry and its decoder rely on |
| Text.Decimal | obfuscator.js:56 | `String(n)` is a nonempty run of decimal digits without a leading zero |
| Text.DecimalValue | obfuscator.js:73 | `parseInt` of `String(n)` is `n` |
| Text.DecimalInjective | obfuscator.js:56 | distinct numbers give distinct numerals, so distinct placeholders |
| Base64.Encode | obfuscator.js:103 | base64 of `n` bytes has `4 * ceil(n / 3)` characters |
| Base64.DecodeEncode | obfuscator.js:103-112 | decoding the base64 of a byte string gives the bytes back |
| Base64.EncodeAlphabet | obfuscator.js:103 | every output character is from the base64 alphabet or is `=` |
| Base64.Latin1Bytes | obfuscator.js:103 | a text is a byte string exactly when each character is at most U+00FF, its bytes being the characters |
| Base64.Btoa | obfuscator.js:103 | `btoa` throws exactly when a character is above U+00FF, and then with `InvalidCharacterError` |
| Base64.AtobBtoa | obfuscator.js:103-112 | `atob(btoa(s)) == s` for every text `btoa` accepts |
| Utf8.Utf8Bytes | public/script.js:120-122 | the `%XX`-decoded `encodeURIComponent` can only throw `URIError` |
| Utf8.DecodeUtf8Bytes | public/script.js:186-188 | `decodeURIComponent(escape(...))` of those bytes gives the code units back |
| Utf8.UnitsEncode | public/script.js:120 | the code units of a well-formed text never make `encodeURIComponent` throw |
| Utf8.NoSurrogateEncodes | public/script.js:120 | code units without surrogates always encode |
| Utf8.LowSurrogateFirstThrows | public/script.js:120 | a low surrogate met before any high one makes `encodeURIComponent` throw |
| Utf8.PairForm | public/script.js:120 | a surrogate pair combines into a supplementary code point that splits back into the pair |
| Utf8.BmpUnits | public/script.js:185 | a text without characters above U+FFFF is one non-surrogate code unit per character |
| Utf8.SafeBtoa | public/script.js:119-123 | `safeBtoa` throws exactly when `encodeURIComponent` does |
| Utf8.SafeBtoaRoundTrip | public/script.js:119-123 | the payload `B` that `safeBtoa` returns decodes, through `atob`, `escape` and `decodeURIComponent`, back to the code units it encoded |
| Utf8.ReversedUnitsThrow | public/script.js:185-186 | encoding the reversed code units of a literal throws exactly when the literal has a character above U+FFFF |
| Lexer.BoundaryEnd | obfuscator.js:166 | the trailing `\b` backtracks the greedy name to the largest end where a word boundary holds, or fails when there is none |
| Lexer.BraceBody | obfuscator.js:127 | the body group ends at the first `}` after the opening brace and holds no `}` |
| Lexer.FunctionAt | obfuscator.js:127 | a function match has three groups and ends at the first `}` of its body |
| Lexer.FlattenScan | obfuscator.js:54 | the global search neither loses nor invents text |
| Lexer.ScanLeftmost | obfuscator.js:54 | the search finds leftmost non-overlapping matches: each at a position where the pattern matches, none at a stepped-over character |
| Lexer.LeftmostUnique | obfuscator.js:54 | the search result is the only sequence of pieces with that description |
| Lexer.FillMatches | obfuscator.js:54-57 | replacing every match with itself gives the text back |
| Lexer.LiteralRest | obfuscator.js:60 | the lazy body of a string literal: up to and including the closing quote, a backslash taking the next character along, no line terminator; a match covers at least the closing quote |
| Lexer.StringLiteralAt | obfuscator.js:60 | a string literal starting here spans at least its two quotes |
| Lexer.BlockEnd | obfuscator.js:52 | the lazy `[\s\S]*?` of a block comment stops at a `*/` |
| Lexer.CommentAt | obfuscator.js:52 | a block comment up to its first `*/`, or a line comment up to the end of its line; at least two characters |
| Lexer.PlaceholderAt | obfuscator.js:72 | a placeholder `/*TAG_n*/` whose one group is a nonempty run of digits |
| Lexer.DeclarationAt | obfuscator.js:166 | a keyword after a word boundary, white space and a name ending at a word boundary; two groups |
| Lexer.MatchAt | obfuscator.js:54 | a match of a pattern at one position, with the pattern's number of groups |
| Lexer.Scan | obfuscator.js:54 | the global `replace` search; `FlattenScan`, `ScanLeftmost` and `LeftmostUnique` state its meaning |
| Lexer.Fill | obfuscator.js:54-57 | the text with each match replaced by the callback's value; `FillMatches` and `FillAppend` state its meaning |
| TokenShield.ShieldPieces | obfuscator.js:54-57 | the callback pushes the matches in order and the text gets placeholder `n` for match `n` |
| TokenShield.Shield | obfuscator.js:54-57 | one shielding replace gives the numbered text and the table of matches |
| TokenShield.PreserveTokens | obfuscator.js:48-68 | comments first, then string literals of the result, each table in match order; no tables without `preserveFlow` |
| TokenShield.ShieldNumbering | obfuscator.js:56 | searching a shielded text for placeholders finds `0, 1, 2, ...`, one per match |
| TokenShield.Rescan | obfuscator.js:72-77 | the placeholder search over a shielded text finds exactly the placeholders it holds |
| TokenShield.RestoreOne | obfuscator.js:73 | a placeholder restores to its entry, or to the fallback past the end of the table or at an empty entry |
| TokenShield.RestoreShielded | obfuscator.js:70-80 | restoring one shielding replace with its own table gives the text back |
| TokenShield.CommentShieldClean | obfuscator.js:52-65 | shielding comments never creates the head of a string placeholder |
| TokenShield.Preserve | obfuscator.js:48-68 | the object `preserveTokens` returns; `PreserveTokens` and `RestorePreserved` state its meaning |
| TokenShield.Lookup | obfuscator.js:73 | the entry at `parseInt(index)`, or the fallback when it is missing or empty; `RestoreOne` states its meaning |
| TokenShield.RestorePass | obfuscator.js:73 | one placeholder `replace`; `RestoreShielded` states its meaning |
| TokenShield.RestoreTokens | obfuscator.js:70-80 | strings first with the fallback `""`, then comments with the empty fallback; `RestorePreserved` states its meaning |
| TokenShield.RestorePreserved | obfuscator.js:48-80 | `restoreTokens(preserveTokens(code))` is `code` when the code holds no placeholder head |
| StringArray.Entry | obfuscator.js:98-104 | an entry throws exactly when its literal holds a character above U+00FF, and then with `InvalidCharacterError` |
| StringArray.EncodedStrings | obfuscator.js:82-123 | the string array pass; `EncodedStringsThrow` and `EncodedStringsDecode` state its meaning |
| StringArray.ReplaceLiterals | obfuscator.js:85-92 | the pushed strings are the literals in order and literal `i` becomes `_0xstrings[i]` |
| StringArray.BuildArrayCode | obfuscator.js:95-120 | the `+=` building gives the array declaration, the decoder and the shuffle line |
| StringArray.EncodeStrings | obfuscator.js:82-123 | `encodeStrings` is the array text in front of the replaced code, or the exception of `btoa` |
| StringArray.NoLiteralsUnchanged | obfuscator.js:94-122 | code without literals comes back unchanged |
| StringArray.EntriesThrow | obfuscator.js:98-104 | the entries fail exactly when a literal has a character above U+00FF |
| StringArray.EncodedStringsThrow | obfuscator.js:82-123 | the pass throws exactly when a literal has a character above U+00FF |
| StringArray.EntryNoComma | obfuscator.js:98-104 | an entry, reversed or not, holds no comma |
| StringArray.EntryUnquoted | obfuscator.js:97-104 | an entry, reversed or not, holds no `'`, `"` or backquote, so the array item is a bare token and not a string literal |
| StringArray.EntriesUnquoted | obfuscator.js:96-105 | no item of the emitted array holds a quote character |
| StringArray.EntryAt | obfuscator.js:97-104 | item `i` of the array is the entry of literal `i`: `map` keeps the order of the literals |
| StringArray.EntryDecodes | obfuscator.js:98-114 | one entry holds no comma, and the emitted decoder, applied to it, would give its literal back |
| StringArray.EntriesDecode | obfuscator.js:98-114 | the emitted decoder, applied to entry `i`, would give literal `i` back, quotes included |
| StringArray.EncodedStringsDecode | obfuscator.js:82-123 | with `k > 0` literals: the output is `k` comma-separated entries, the decoder and the shuffle line, in front of the code with literal `i` replaced by `_0xstrings[i]`; under the model's inverse, each entry decodes to its literal and putting them back restores the code |
| StringArray.ShuffleLineOnlyWhenAsked | obfuscator.js:117-119 | the array text ends with the shuffle statement exactly when shuffling is on and there are two literals or more |
| LiteralCodec.Wrap | public/script.js:183-189 | one literal's replacement throws exactly when the wrapping rejects the literal |
| LiteralCodec.WrapRoundTrip | public/script.js:184-188 | the payload between the head and the tail of every emitted replacement decodes to the code units of the literal it replaced |
| LiteralCodec.ReplacementsEntries | script.js:63-65 | the replacement of literal `i` is its own emitted expression |
| LiteralCodec.ReplacementsThrow | public/script.js:183-189 | the callbacks throw exactly when some literal is rejected |
| LiteralCodec.RejectedLiteral | script.js:64 | when the callbacks throw, a rejected literal is exhibited, and its exception is the one that escapes |
| LiteralCodec.Collect | script.js:63-65 | `replace` with a callback, run on the matches in order; when it returns, it returns one replacement per match |
| LiteralCodec.CollectLast | script.js:63-65 | one step of `replace`: the last match's replacement follows the earlier ones, and either side throwing makes the whole throw |
| LiteralCodec.CollectThrowing | script.js:63-65 | when `replace` throws, it throws what the callback threw on some match |
| LiteralCodec.CollectEntries | script.js:63-65 | when `replace` returns, the replacement of each match is what the callback returned for it |
| LiteralCodec.WrappedThrow | script.js:60-66 | the pass throws exactly when some literal is rejected |
| LiteralCodec.WrappedRoundTrip | public/script.js:182-190 | the text between literals is kept and each literal becomes its own wrapped payload, which decodes to the literal |
| LiteralCodec.Unwrap | public/script.js:184-188 | the decoding the wrappers are written for, applied to the payload between head and tail; `WrapRoundTrip` states it inverts the encoding |
| LiteralCodec.Wrapped | public/script.js:182-190 | the `replace` of every literal by its wrapped payload; `WrappedThrow` and `WrappedRoundTrip` state its meaning |
| LiteralCodec.AtobOnlyBalanced | script.js:64 | script.js's `atob("...")` replacement has as many `)` as `(` |
| LiteralCodec.StandardUnbalanced | public/script.js:188 | the plain replacement `decodeURIComponent(escape(atob('...'))` has one `(` more than `)`, so it is not valid JavaScript |
| LiteralCodec.AdvancedUnbalanced | public/script.js:186 | the advanced replacement has one `}` more than `{`, so it is not valid JavaScript |
| LiteralCodec.NoLiteralsUnchanged | script.js:60-66 | code without literals comes back unchanged |
| Naming.CharAt0 | public/script.js:170 | `charAt(0)` is the first character, or empty for the empty name |
| Naming.HexDigits | public/script.js:172 | six lower-case hexadecimal digits |
| Naming.HexRunText | public/script.js:174-175 | one lower-case hexadecimal digit per draw |
| Naming.NameShape | public/script.js:169-176 | a drawn name is `_`, the first character and a number below 100; or `_0x` and six, or `n`, hexadecimal digits |
| Naming.InitialNames | obfuscator.js:176 | the names level `low` can draw for one first character, exactly |
| Mangler.LevelScheme | obfuscator.js:175-182 | `low` draws `_`, the first character and a number, `medium` six hexadecimal digits, any other level eight; each takes at least one draw |
| Mangler.Mangled | obfuscator.js:164-188 | the mangled code; `RenamesEntries`, `RenamesDistinct` and `ShortNamesUnchanged` state its meaning |
| Mangler.Fresh | obfuscator.js:174-183 | the `do ... while` returns a name not yet handed out, made from one attempt's draws, using up draws |
| Mangler.Step | obfuscator.js:169-187 | a short name keeps its match; otherwise keyword, space and a fresh name, which joins the used names |
| Mangler.Renames | obfuscator.js:169-187 | one replacement per declaration; the used names only grow |
| Mangler.RenamesEntries | obfuscator.js:169-187 | declaration `i` keeps its match exactly when its name is short; otherwise it gets a name unused before and used after |
| Mangler.RenamesUnused | obfuscator.js:183-185 | every drawn name is absent from the names handed out before it |
| Mangler.RenamesDistinct | obfuscator.js:183-185 | no two declarations receive the same new name, even when their names are equal |
| Mangler.ShortNamesUnchanged | obfuscator.js:170 | code whose declared names are all shorter than three characters comes back unchanged |
| Mangler.LowLevelExhausted | obfuscator.js:174-183 | once the hundred `low` names of a first character are used, the loop never ends, whatever the draws |
| Mangler.FreshShape | obfuscator.js:175-182 | the fresh name has the shape of its level |
| Mangler.DrawName | obfuscator.js:175-182 | one attempt of the `do` body |
| Mangler.FreshName | obfuscator.js:173-183 | the `do ... while` loop computes `Fresh` |
| Mangler.MangleOne | obfuscator.js:169-187 | the callback computes `Step` |
| Mangler.MangleIdentifiers | obfuscator.js:164-188 | the replace with `usedNames` threaded through the callback |
| Renamer.RenamedCode | public/script.js:165-179 | the renamed code and the draws left; `RenamedDraws` and `RenamedEntries` state its meaning |
| Renamer.Rename | public/script.js:165-179 | a kept name keeps its match and draws nothing; otherwise keyword, space and the name of the next draws, `None` only when they run out |
| Renamer.RenamedDraws | public/script.js:165-179 | the renaming succeeds exactly when the oracle holds one name's draws per renamed declaration, and it uses exactly those |
| Renamer.RenamedEntries | public/script.js:165-179 | declaration `i` is kept or renamed from the draws after those of the earlier declarations |
| Renamer.SameInitialName | public/script.js:170 | the drawn name depends on the old name only through its first character |
| Renamer.SameDrawsSameName | script.js:71-77 | nothing prevents two declarations from receiving the same name: equal draws give equal names |
| Renamer.RenamedShape | public/script.js:168-176 | each renamed declaration is its keyword, a space and a name of the complexity's shape |
| Renamer.AllKeptUnchanged | public/script.js:166 | code whose declarations are all kept comes back unchanged and draws nothing |
| Splice.Above | obfuscator.js:204 | `Math.random() > t / 10` as the draw's last decimal digit being at least `t` |
| Splice.Points | obfuscator.js:203-207 | the insert points are exactly the chosen line numbers, strictly increasing |
| Splice.InsertPoints | obfuscator.js:201-207 | the sampling loop computes the points from one draw per line |
| Splice.UnweaveWeave | obfuscator.js:209-212 | dropping the inserted blocks gives the original lines in order |
| Splice.WeaveLength | obfuscator.js:209-212 | the lines grow by exactly the number of points |
| Splice.SpliceStep | obfuscator.js:211 | splicing at a point from the last to the first extends the woven tail down to that point |
| DeadCode.StatementsAreLines | obfuscator.js:231-235 | every generated statement is one line ending with `;` |
| DeadCode.BlockLines | obfuscator.js:217-239 | a random block has `3 * count` lines, between six and eighteen, each a statement |
| DeadCode.DeadBlocks | obfuscator.js:192-197 | the four dead blocks |
| DeadCode.PicksFromBlocks | obfuscator.js:209-211 | every point receives one of the four blocks |
| DeadCode.PicksKeep | obfuscator.js:209-212 | a line that is not a point receives nothing |
| DeadCode.SplicedShape | obfuscator.js:200-214 | the lines grow by one per point, the original lines come back in order, and each point receives one of the four blocks |
| DeadCode.NoPointsUnchanged | obfuscator.js:203-214 | with no line draw above the threshold the code comes back unchanged |
| DeadCode.Turn | obfuscator.js:226-235 | one turn pushes the three statements of its six draws |
| DeadCode.Turns | obfuscator.js:225-236 | the push loop computes the statements of `count` turns |
| DeadCode.GenerateRandomCodeBlock | obfuscator.js:217-239 | `generateRandomCodeBlock` is the random block |
| DeadCode.BuildDeadCodeBlocks | obfuscator.js:192-197 | the four blocks, drawing in the order the source evaluates them |
| DeadCode.SpliceBlocks | obfuscator.js:209-212 | the reversed `splice` loop weaves each picked block in before its line |
| DeadCode.SpliceDeadCode | obfuscator.js:200-214 | split, sample the points, splice |
| DeadCode.InjectDeadCode | obfuscator.js:190-215 | `injectDeadCode` is the injected code |
| WebDeadCode.TurnsAreTurns | public/script.js:235-244 | each turn is two `var` statements over the fixed tables, plus the `try`/`catch` exactly when heavy |
| WebDeadCode.DeadCodeShape | public/script.js:226-248 | a block is one to three turns, or three to seven when heavy, and takes one draw plus six per turn |
| WebDeadCode.GenerateTurns | public/script.js:234-245 | the `code +=` loop computes the turns |
| WebDeadCode.GenerateDeadCode | public/script.js:226-248 | `generateDeadCode` is the generated block |
| WebDeadCode.PlacedAt | public/script.js:218-221 | the `j`-th block generated goes before the `j`-th point from the end |
| WebDeadCode.BlocksNone | public/script.js:218-221 | once the draws run out for one block they stay out for all later ones |
| WebDeadCode.SpliceFresh | public/script.js:218-221 | the reversed `splice` loop weaves a freshly generated block in before each point |
| WebDeadCode.DeadCodeAddedShape | public/script.js:208-224 | the lines grow by one per point, the original lines come back in order, and the blocks sit before their points |
| WebDeadCode.NoPointsUnchanged | public/script.js:212-223 | with no line draw above the threshold the code comes back unchanged |
| WebDeadCode.AddDeadCode | public/script.js:208-224 | `addDeadCode` is the woven code |
| Dispatch.NonBlank | obfuscator.js:131 | the filter keeps exactly the parts holding something other than white space |
| Dispatch.Statements | obfuscator.js:131 | every statement is free of `;` and not blank |
| Dispatch.FirstCase | obfuscator.js:139-156 | an integral state selects a `case` exactly when some arm carries that label |
| Dispatch.DefaultBody | public/script.js:202 | `default:` is found exactly when some arm is `default:` |
| Dispatch.Group | obfuscator.js:141-152 | statement `i` gets `case i:` running it and moving to `i + 1`, then the non-integer arms |
| Dispatch.GroupsSelect | obfuscator.js:141-153 | `case i:` selects statement `i`'s own arm and no other integral label occurs |
| Dispatch.MachineSelect | obfuscator.js:139-157 | state `i < k` selects statement `i`'s arm and state `k` the returning arm |
| Dispatch.Emitted | obfuscator.js:143 | the arms run the statements, trimmed when the layout trims |
| Dispatch.Run | obfuscator.js:137-158 | the `while (true) switch` loop run for at most a given number of rounds; `RunFrom` and `RunInOrder` state its meaning |
| Dispatch.RunFrom | obfuscator.js:137-158 | from state `j` the loop runs statements `j, j + 1, ...` and returns, in one round per statement plus one |
| Dispatch.RunInOrder | obfuscator.js:137-158 | from state 0 the loop runs all statements in order and returns, not earlier |
| Dispatch.FlattenedKeepsShort | obfuscator.js:134 | when no matched body holds two statements the code is unchanged |
| Dispatch.RewriteRunsInOrder | obfuscator.js:129-161 | a rewritten function keeps name and parameters, and its switch runs the statements in order and returns |
| Dispatch.MachineFractionArms | obfuscator.js:148-152 | non-integer arms exist exactly when the layout asks for them and there is a statement |
| ControlFlow.EmitCase | obfuscator.js:142-152 | the text of statement `i`'s arms, with the `i.1` arm at `high` and `extreme` |
| ControlFlow.EmitCases | obfuscator.js:141-153 | the `forEach` builds the arms of every statement in order |
| ControlFlow.SwitchBody | obfuscator.js:137-158 | `newBody` is the head, the arms, `case k: return;` and the closing braces |
| ControlFlow.FlattenFunction | obfuscator.js:129-161 | the callback keeps a match with fewer than two statements and rewrites the others |
| ControlFlow.FlattenControlFlow | obfuscator.js:125-162 | `flattenControlFlow` is the replace with the level's layout |
| CompactFlow.CompactCase | public/script.js:199-200 | the arms of statement `i`, untrimmed, with `case i.1` and `case i.2` |
| CompactFlow.CompactCases | public/script.js:198-201 | the `forEach` builds the arms of every statement in order |
| CompactFlow.CompactFunction | public/script.js:193-205 | the callback keeps a match with fewer than two statements and rewrites the others |
| CompactFlow.FlattenCompact | public/script.js:192-206 | `flattenControlFlow` is the replace with the compact layout |
| CompactFlow.CompactText | script.js:84-95 | a rewritten function is its name, parameters and the one-line switch closed by `default:return;` |
| CompactFlow.CompactRewriteRuns | public/script.js:193-205 | the switch runs the statements in order and returns; the fractional arms exist exactly in the public/script.js variant |
| Obfuscator.AddDebugProtection | obfuscator.js:241-252 | the guard, then the code unchanged |
| Obfuscator.AddDomainLock | obfuscator.js:254-260 | the domain check, then the code unchanged |
| Obfuscator.GuardsArePrefixes | obfuscator.js:241-260 | each guard is a fixed prefix: `f(c) == f("") + c` |
| Obfuscator.AppendOptionLines | obfuscator.js:267-269 | the loop appends one line per option entry, in order |
| Obfuscator.GenerateHeaderComment | obfuscator.js:262-274 | `generateHeaderComment` is the header text |
| Obfuscator.HeaderOpens | obfuscator.js:263 | the header opens a documentation comment |
| Obfuscator.HeaderNamesLevel | obfuscator.js:264 | the header names the level on a line of its own |
| Obfuscator.HeaderListsOptions | obfuscator.js:267-269 | the header lists every option key with its value |
| Obfuscator.HeaderCloses | obfuscator.js:271-272 | the header ends by closing the comment and a blank line |
| Obfuscator.PrepareCode | obfuscator.js:9-17 | the string array pass, which may throw, then the control-flow pass |
| Obfuscator.RandomizeCode | obfuscator.js:19-25 | the dead code, then the mangling, each drawing from what is left |
| Obfuscator.FinishCode | obfuscator.js:27-40 | the guards, then `restoreTokens` with the tables `preserveTokens` filled |
| Obfuscator.Obfuscated | obfuscator.js:2-45 | the result of `obfuscate`; the lemmas below state its meaning |
| Obfuscator.Obfuscate | obfuscator.js:2-45 | `obfuscate` reassigning `obfuscatedCode` pass by pass is the specified result |
| Obfuscator.ThrowsOnlyFromStringArray | obfuscator.js:10-12 | `obfuscate` throws exactly when the string array is on and a literal has a character above U+00FF |
| Obfuscator.ThrowsFromPrepared | obfuscator.js:9-25 | `obfuscate` throws exactly when the passes before the random ones (string array, control flow) throw |
| Obfuscator.ManglingAlwaysRuns | obfuscator.js:24-25 | with every option off the body is the mangled code |
| Obfuscator.AllOffShortNames | obfuscator.js:2-45 | with every option off and no declared name of three characters or more the result is header plus code |
| Obfuscator.GuardedIsPrefixed | obfuscator.js:27-35 | the guards prefix the domain lock, then the debug guard |
| Obfuscator.SamePasses | obfuscator.js:9-25 | the passes before the guards read only their own options |
| Obfuscator.GuardsWrapUnrestored | obfuscator.js:27-35 | the guards wrap whatever the earlier passes produced, domain lock outermost |
| Obfuscator.GuardsWrapBody | obfuscator.js:27-35 | without `preserveFlow` the body is the guard prefix in front of the unguarded body |
| Obfuscator.UnrestoredIgnoresFlow | obfuscator.js:4-35 | the passes before `restoreTokens` do not depend on `preserveFlow` |
| Obfuscator.PreserveFlowOnlyRestores | obfuscator.js:4-40 | `preserveFlow` only adds the final `restoreTokens`; the passes never see the shielded text |
| WebObfuscator.FormatLevelName | public/script.js:282-290 | a known level gets its label, any other level comes back as it is |
| WebObfuscator.LevelNamesDistinct | public/script.js:283-288 | the four levels have four different labels |
| WebObfuscator.HeaderNamesLevel | public/script.js:127-129 | the header names the level's label on a line of its own |
| WebObfuscator.PassesOfLevels | public/script.js:132-156 | exactly the four listed levels run passes, each mangling first |
| WebObfuscator.SwitchRunsPasses | public/script.js:132-156 | the switch runs the passes of its level in order |
| WebObfuscator.UnknownLevelHeaderOnly | public/script.js:125-159 | an unlisted level gives the header alone, the level written as it is |
| WebObfuscator.AfterStuck | public/script.js:132-156 | after a throw or an exhausted oracle no later pass changes the outcome |
| WebObfuscator.AfterChain | public/script.js:132-156 | a finished run is the text so far plus each pass's output, each pass given the draws the previous one left |
| WebObfuscator.AfterThrows | public/script.js:132-156 | a run throws only with an exception one of its passes threw |
| WebObfuscator.ObfuscatedConcatenates | public/script.js:125-159 | the result is the header followed by every pass's output on the original code |
| WebObfuscator.OutputThrows | public/script.js:182-190 | only `encodeStrings` throws |
| WebObfuscator.EncodingLevels | public/script.js:137-151 | `encodeStrings` runs at `hard`, `hardest`, `most-hardest`, in advanced form at the last only |
| WebObfuscator.ThrowsOnlyWhenEncoding | public/script.js:132-156 | `obfuscateCode` throws only at the encoding levels, with the encoder's exception |
| WebObfuscator.RunPass | public/script.js:134-154 | one pass on the original code |
| WebObfuscator.Append | public/script.js:134 | `obfuscated += pass(code)` |
| WebObfuscator.Obfuscated | public/script.js:125-159 | the result of `obfuscateCode`; the lemmas above state its meaning |
| WebObfuscator.ObfuscateCode | public/script.js:125-159 | the header, then the switch, is the specified result |
| SimpleObfuscator.NeedsCodeIffBlank | script.js:34-38 | the page asks for code exactly when the input is white space only |
| SimpleObfuscator.WrappedThrowsInvalid | script.js:64 | `obfuscateStrings` throws nothing but `InvalidCharacterError` |
| SimpleObfuscator.FailsIffWideLiteral | script.js:42-57 | the failure is reported exactly when the input holds code and a literal has a character above U+00FF |
| SimpleObfuscator.DoneFromOriginal | script.js:44-50 | the result is the trimmed template over the three passes, each run on the trimmed input |
| SimpleObfuscator.TrimTitle | script.js:44-50 | trimming the template keeps the two banner lines in front |
| SimpleObfuscator.DoneOpensWithBanner | script.js:44-50 | the result opens with the two banner lines |
| SimpleObfuscator.Obfuscated | script.js:33-58 | the outcome of `obfuscateCode`; the lemmas above state its meaning |
| SimpleObfuscator.ObfuscateCode | script.js:33-58 | trim, check, then the template inside the `try`, is the specified result |

## Left out

- **app.js.** It only gathers form controls into the options object, waits with `setTimeout`,
  toggles the button, and handles alerts, the clipboard and downloads. `Obfuscator.Options` is the
  record it builds, in its key order.
- **Page code.** The DOM and event code of public/script.js and script.js is not modelled: `init`,
  the handlers, `handleFileUpload`, `showStatus` with its timers and fade, copy and download. In
  script.js the status messages and `console.error` are folded into `SimpleObfuscator.Report`.
- **`Math.random`.** It is an oracle of natural numbers.
  - `Math.floor(Math.random() * k)` is the number modulo `k`.
  - `Math.random() > 0.9` and `> 0.7` compare the number's last decimal digit with the tenths
    (`Splice.Above`).
- **Number formatting.**
  - `var _0xunused=${Math.random()}` writes the number in decimal.
  - The float text of `case ${i + 0.1}` is the label `Dispatch.CaseFraction(i, 1)`, written `i.1`. The
    other floating-point behaviour of JavaScript numbers is not modelled.
- Naming.HexDigits: `Math.random().toString(16).substr(2, 6)` is modelled as exactly six
  hexadecimal digits of the draw. A float whose hexadecimal expansion is shorter gives fewer.
- **`sort` in the emitted shuffle statement.** The comparator is never executed. Only the emitted
  line is modelled, so the mismatch between the shuffled array and the already emitted indices is
  not stated.
- LiteralCodec.WrapRoundTrip: the round trip is for the payload between head and tail. The
  wrappers public/script.js emits are unbalanced (`StandardUnbalanced`, `AdvancedUnbalanced`). So
  they are not valid JavaScript and evaluate to nothing as written.
- LiteralCodec.WrappedRoundTrip: the same holds for every literal of the pass. Only the payload
  decodes back; the emitted text is not valid JavaScript.
- **Running the emitted JavaScript.** The debugger trap, the `location.href` check, and whether the
  output parses are not modelled. The switch's selection and looping are the only runtime meaning
  given (`Dispatch`). The base64 decoders' meaning is given by `Base64.Atob` and
  `Utf8.DecodeEmitted`.
- Dispatch.RunInOrder: the loop is run with a round bound (fuel). The lemma shows that `k + 1`
  rounds suffice and `k` do not.
- Mangler.LowLevelExhausted: a `do ... while` that never ends is shown as `None` for every oracle.
  A finite oracle cannot express non-termination.
- TokenShield.RestorePreserved: the round trip is proved for code that holds no `/*COMMENT_` and no
  `/*STRING_`. Code that already holds a placeholder is restored from the tables as the source does,
  with no round trip claimed.
- **Lone surrogates in the input.** They are not modelled: Dafny's `char` is a Unicode scalar value.
  Code units appear only where the source splits a literal into them (`Utf8.Units`), which is where
  the advanced encoder's `URIError` comes from.
- WebObfuscator.FormatLevelName: `names[level]` for a key inherited from `Object.prototype` (such as
  `constructor`) is not modelled. Such a level is treated as any other unknown level.
- **Regular expressions in general.** Only the five patterns the source uses are modelled. Each is
  a deterministic matcher with the same leftmost, lazy or greedy, and backtracking outcome.
- **Uses of renamed identifiers.** They are not renamed, exactly as in the source. No lemma claims
  that the output runs like the input.
