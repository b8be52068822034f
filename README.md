# fluvio-jolt shift core, in Dafny

This project models the core of fluvio-jolt, a Jolt-style JSON-to-JSON transformer written in Rust. Its "shift" operation is driven by a small expression language. Every key of a shift spec is a left-hand side (LHS) that matches input keys: a literal, `*`-globs, `a|b` alternations, `&(level,index)` back-references, and `$`, `@(level,path)` and `#literal` forms that compute a value. Every value is a right-hand side (RHS), an output path. The model covers:

- **The shift evaluator** (`fluvio-jolt/src/shift.rs`), in modules `ShiftEval`, `ShiftInsert`, `StarMatch` and `Shift`:
  - the walk over the input with a stack of capture frames;
  - the literal → back-reference → alternation match order;
  - `&`/`$`/`@` lookups;
  - glob matching;
  - how output paths grow the output tree.

  `apply`, `match_obj_and_key`, `apply_match` and `insert_val_to_rhs` are methods of class `Shift.Walk`. That class holds the stack and the output, and each method is proved equal to a specification function. The lookups are functions.
- **The spec compiler** (`src/dsl/deserialize.rs`, `ObjectVisitor::visit_map`), in module `Deserialize`. It rejects duplicate keys, parses each key, and sorts entries into four buckets. `Deserialize.VisitMap` is the loop, proved equal to the function `Deserialize.Compile`.
- **The lexer layer**, in modules `Lexical`, `CharCursor`, `FluvioTokenizer` and `PeekTokenizer`:
  - the UTF-8 character cursor with one-slot pushback (`fluvio-jolt/src/dsl/chars.rs`);
  - the tokenizer over it with one-token pushback (`fluvio-jolt/src/dsl/tokenizer.rs`);
  - the earlier peek-based tokenizer (`src/dsl/tokenizer.rs`);
  - the token kinds of `src/dsl/token.rs`.

  Both tokenizers are proved against one scanner specification (`Lexical.Scan`). The specification is proved to round-trip: rendering the tokens gives back the input.
- **The character-level recursive-descent parser** (`src/expr.rs`), in modules `Expr`, `ExprParser`, `ExprRender` and `ExprTests`:
  - class `ExprParser.Parser` consumes the input step by step, and each method is proved against a function of `Expr`;
  - `ExprRender` prints expressions, and proves that printing then parsing is the identity on well-formed expressions;
  - it also proves that everything the parser returns is well-formed.
- **The path helpers**:
  - `JsonPointer` (`src/pointer.rs`), in module `Pointer`;
  - the depth-first leaf enumerator `SpecIter` (`src/spec.rs`), in module `SpecIter`.

Shared definitions sit in `Wrappers`, `Strings` and `JsonValue`:

- `Option`/`Result`;
- UTF-8 byte length by code point;
- decimal text of numbers;
- Rust's `usize::from_str`, with `usize` taken as 64-bit;
- `str::split` and `join`;
- the JSON datatype.

Objects are association lists. Numbers are integers whose text is their decimal rendering. `Ast` transcribes `fluvio-jolt/src/dsl/ast.rs`, with `RhsPart`/`RhsEntry`/`IndexOp` nesting `Rhs` inside `At` variants.

Points where the model follows particular choices of the code:

- **Dots in an RHS.** Dots in an RHS are never rejected: src/expr.rs:95-98 turns every `.` into a `Dot` entry, and `Expr.RhsEntryFrom` does the same, so leading, trailing or doubled dots parse.
- **Compiler errors.** Compiler errors are message strings (src/dsl/deserialize.rs:46, 135), so `Deserialize.Parsers` returns `Result<_, string>`.
- **`EmptyNumber`.** `src/expr.rs:307` returns `Error::EmptyNumber`, which the `Error` enum of `src/error.rs` does not declare. The model keeps it as the variant `Expr.ExprError.EmptyNumber`.
- **Bucketing values and `Thrash`.** `src/dsl/deserialize.rs` reads every value as a nested object or one RHS, but `fluvio-jolt/src/shift.rs` runs several RHS per entry (`:54`, `:155`) and has an `REntry::Thrash` (`:160`).
  - A compiled value is therefore `REntry.Obj | REntry.Rhs(seq<Rhs>) | REntry.Thrash`.
  - A spec value is `Nested | Path | Paths | Drop`.
  - An infallible key whose value is not a path or a list of paths is a compile error.

## Model

| member | source | states |
|---|---|---|
| Strings.Utf8Len | fluvio-jolt/src/dsl/chars.rs:28-39 | `char::len_utf8` is 1 to 4 bytes, and 1 exactly for ASCII |
| Strings.ByteLenAppend | src/dsl/tokenizer.rs:20-24 | the byte length of a concatenation is the sum of the byte lengths, so byte offsets add up character by character |
| Strings.ByteLenAtLeastLength | src/dsl/tokenizer.rs:20-24 | every character costs at least one byte |
| Strings.NatTextValue | fluvio-jolt/src/shift.rs:72-73 | the decimal text of `n` (`to_string`) evaluates back to `n` |
| Strings.NatTextInjective | fluvio-jolt/src/shift.rs:72-73 | distinct indices have distinct decimal texts |
| Strings.ParseNatText | src/pointer.rs:53 | `usize::from_str` reads back the decimal text of every `n <= usize::MAX` |
| Strings.ParseUsize | src/pointer.rs:53 | `usize::from_str` results never exceed `usize::MAX` |
| Strings.SplitJoin | src/pointer.rs:17 | splitting on a separator and joining with it is the identity |
| Strings.SplitPiecesFree | src/pointer.rs:17 | no piece of `str::split(sep)` contains `sep` |
| Strings.SplitOnJoin | src/pointer.rs:17 | joining separator-free pieces and splitting again gives the pieces |
| Strings.SplitOnSnoc | src/pointer.rs:17 | appending a character either starts a new piece (the separator) or extends the last one |
| Strings.JoinSplitOn | src/pointer.rs:17 | splitting on `a` and joining with `b` replaces each `a` by `b` |
| JsonValue.KeyIndex | fluvio-jolt/src/shift.rs:265-271 | `Map::get`: the position of the first field with the key, or none when no field has it |
| ShiftEval.GetMatch | fluvio-jolt/src/shift.rs:435-454 | level ≥ stack length is `PathIndexOutOfRange`; an index ≥ the frame's capture count is `MatchIndexOutOfRange`; otherwise the capture of the frame `level` below the top |
| ShiftEval.GetMatchPush | fluvio-jolt/src/shift.rs:439-446 | level 0 is the frame pushed last; pushing a frame shifts every other level by one |
| ShiftEval.AsIndex | fluvio-jolt/src/shift.rs:192-200 | an `@` value used as an index: a number in `0..=usize::MAX`, or a string `usize::from_str` accepts; anything else is an error |
| ShiftEval.KeyText | fluvio-jolt/src/shift.rs:242-255 | an `@` value used as a key: a string is taken as it is, a number gives its decimal text, a boolean gives `"true"`/`"false"`, and anything else (null, array, object) is `EvalString` |
| ShiftEval.KeyIntoObject | fluvio-jolt/src/shift.rs:265-272 | a non-object is `UnexpectedRhsEntry`; an absent key is `KeyNotFound`; a hit is a field of the object |
| ShiftEval.EvalAt | fluvio-jolt/src/shift.rs:165-176 | a level at or past the stack length is `PathIndexOutOfRange` |
| ShiftEval.ResolveIndex | fluvio-jolt/src/shift.rs:295-316 | `[]` and only `[]` resolves to a fresh slot; computed indices fit in `usize` |
| ShiftEval.EntryText | fluvio-jolt/src/shift.rs:236-261 | a key entry contributes its text, and a back-reference contributes `get_match` |
| ShiftEval.ResolveSteps | fluvio-jolt/src/shift.rs:282-353 | the resolved output path has one step per RHS part, after the steps already resolved |
| ShiftEval.IndexStepErrors | fluvio-jolt/src/shift.rs:184-214 | reading: an index step into a non-array, or `[]`, is `UnexpectedRhsEntry`; a literal index past the end is `ArrIndexOutOfRange`; otherwise it descends into that element |
| ShiftEval.KeyStepErrors | fluvio-jolt/src/shift.rs:225-228 | reading: a key step into a non-object is `UnexpectedRhsEntry`, an absent key is `KeyNotFound`, otherwise it descends into the field |
| ShiftEval.ArrayKeyIsIndex | fluvio-jolt/src/shift.rs:71-83 | the key an array element is matched under reads back, through `[&]`, as its own index |
| ShiftInsert.Pad | fluvio-jolt/src/shift.rs:318-320 | padding keeps the array as a prefix and fills with `null` up to the length asked for |
| ShiftInsert.SettleAccumulates | fluvio-jolt/src/shift.rs:355-366 | writing a value that is neither `null` nor an array at a slot appends it to what the slot held: `null` is replaced, an array is pushed to, any other `old` becomes `[old, new]` |
| ShiftInsert.PutThenGet | fluvio-jolt/src/shift.rs:282-366 | read-after-write: following the same steps through the new output reaches the slot, settled with the value |
| ShiftInsert.PutKeepsOtherKeys | fluvio-jolt/src/shift.rs:341-350 | a key step leaves every other key of the object as it was |
| ShiftInsert.KeyStepOnNonObject | fluvio-jolt/src/shift.rs:343-350 | a key step replaces any non-object with `{}` and inserts the key as `null` before descending |
| ShiftInsert.IndexStepShape | fluvio-jolt/src/shift.rs:285-322 | an index step turns `null` into `[]` and wraps any other non-array `v` as `[v]`, then pads with `null` up to the index and writes only there |
| ShiftInsert.AppendStepShape | fluvio-jolt/src/shift.rs:311-315 | `[]` pushes one fresh `null` slot at the end and descends into it |
| StarMatch.Find | fluvio-jolt/src/shift.rs:414 | `str::find`: the first occurrence, or none at all |
| StarMatch.Captures | fluvio-jolt/src/shift.rs:412-430 | matching the remaining fragments against the rest of the key yields one capture per fragment |
| StarMatch.EmptyFragmentCaptures | fluvio-jolt/src/shift.rs:427-429 | an empty fragment captures the whole remainder |
| StarMatch.MatchSpec | fluvio-jolt/src/shift.rs:371-433 | zero fragments match only `""`, giving `[""]`; one fragment matches only itself, giving `[key]`; otherwise the key starts with the first fragment, and there is one capture per fragment, the first being the whole key |
| StarMatch.MatchStars | fluvio-jolt/src/shift.rs:371-433 | the loop of `match_stars` returns exactly `MatchSpec` |
| StarMatch.StarMatchesAll | fluvio-jolt/src/shift.rs:393-432 | `*` (fragments `["", ""]`) matches every key and captures it twice |
| StarMatch.TwoFragments | fluvio-jolt/src/shift.rs:393-432 | `a*b` with non-empty `b` matches exactly the keys that start with `a` and contain `b` afterwards; the capture is the text before the first `b` |
| StarMatch.CutAtOccurrence | fluvio-jolt/src/shift.rs:418-423 | the remainder is cut at the occurrence, not after it, so a following empty fragment's capture still starts with the fragment |
| StarMatch.CutAtOccurrenceExample | fluvio-jolt/src/shift.rs:412-430 | `a*b*c` against `a1b2c` captures `1` and then `b2` |
| StarMatch.LastFragmentUnanchored | fluvio-jolt/src/shift.rs:412-430 | the last fragment is not anchored at the end: `a*b` matches `a1b2` |
| Shift.Children | fluvio-jolt/src/shift.rs:60-97 | an object is matched as its entries, an array as its elements under their decimal indices, and a scalar as one pseudo-child holding itself, keyed by `"true"`/`"false"`, the number's decimal text, the string itself, or `"null"` |
| Shift.SelectEntry | fluvio-jolt/src/shift.rs:112-143 | the hit selected for a key names an entry that exists in its bucket |
| Shift.SelectPipes | fluvio-jolt/src/shift.rs:132-141 | alternation matching never fails, and its hit exists |
| Shift.PopRoot | fluvio-jolt/src/shift.rs:22-29 | after the walk, the output is returned iff exactly the root frame is left; an empty stack is `ShiftEmptyPath`, more frames `ShiftPathNotEmpty` |
| Shift.Walk.constructor | fluvio-jolt/src/shift.rs:17-19 | a walk starts with one frame capturing `"root"` over the input, and a `null` output |
| Shift.Walk.Apply | fluvio-jolt/src/shift.rs:36-100 | `apply` computes `ApplyObj`; on success the stack is as it was before |
| Shift.Walk.MatchObjAndKey | fluvio-jolt/src/shift.rs:105-144 | `match_obj_and_key` computes `MatchKey`, and every frame pushed for a match is popped |
| Shift.Walk.ApplyMatch | fluvio-jolt/src/shift.rs:146-162 | `apply_match` computes `ApplyEntry`: descend, write every path, or drop |
| Shift.Walk.InsertValToRhs | fluvio-jolt/src/shift.rs:274-369 | the in-place cursor walk writes what `InsertSpec` (resolve the steps, then `Put`) says, and leaves the stack alone |
| Shift.ShiftApply | fluvio-jolt/src/shift.rs:16-30 | `Shift::apply` starts from one `["root"]` frame and `null`, and returns `Transform` |
| Shift.LiteralWins | fluvio-jolt/src/shift.rs:112-120 | the first literal entry equal to the key is the hit, whatever the other buckets hold |
| Shift.AmpAfterLiterals | fluvio-jolt/src/shift.rs:122-130 | with no equal literal, back-references are tried next, and one that cannot be resolved is an error |
| Shift.PipesHitOrder | fluvio-jolt/src/shift.rs:112-141 | an alternation is applied only when no literal equals the key and every back-reference resolves to another key; the glob of one of its branches matched, with the captures used |
| Shift.PipesHitFrom | fluvio-jolt/src/shift.rs:132-141 | alternations are tried in order, branches in order, and the hit's captures are `match_stars`' |
| Shift.UnmatchedOrDroppedWritesNothing | fluvio-jolt/src/shift.rs:143-160 | a key that matches nothing, or matches a drop entry, leaves the output unchanged |
| Shift.NoMatchEntries | fluvio-jolt/src/shift.rs:60-97 | a spec without fallible entries writes nothing while walking the children |
| Shift.EmptySpecGivesNull | fluvio-jolt/src/shift.rs:16-30 | the empty spec maps every input to `null` |
| Shift.IdentityMatch | fluvio-jolt/src/shift.rs:132-139 | under `{"*": "&"}` every key is written under itself |
| Shift.IdentityCopiesChildren | fluvio-jolt/src/shift.rs:36-100 | when the input's keys are distinct, `{"*": "&"}` copies its children, in order, into an object |
| Shift.IdentityOnArray | fluvio-jolt/src/shift.rs:71-83 | under `{"*": "&"}` an array becomes an object keyed by element index |
| Shift.DollarAtRoot | fluvio-jolt/src/shift.rs:45-48 | `{"$": "name"}` at the root writes `{"name": "root"}` |
| Deserialize.ParsePaths | src/dsl/deserialize.rs:42-47 | a list of paths parses to one RHS per string, each the parse of its string; it fails exactly when some string fails, with the error of the first string that fails |
| Deserialize.VisitMap | src/dsl/deserialize.rs:68-110 | the key loop of `visit_map` returns exactly `Compile` |
| Deserialize.NextEntry | src/dsl/deserialize.rs:157-162 | reading a fallible entry's value returns exactly `EntryOf` |
| Deserialize.ClassifyAll | src/dsl/deserialize.rs:82-106 | classifying keys from `i` gives one tagged entry per remaining key |
| Deserialize.CompileCharacterized | src/dsl/deserialize.rs:73-110 | a spec object compiles iff its key strings are distinct and every key and value parses; the result is the four buckets of the classified entries, in key order |
| Deserialize.CompileFromCharacterized | src/dsl/deserialize.rs:77-107 | the same, from any point of the loop with any keys already seen and buckets already filled |
| Deserialize.BucketSizes | src/dsl/deserialize.rs:84-106 | each classified entry lands in exactly one bucket |
| Deserialize.CompileKeepsEveryEntry | src/dsl/deserialize.rs:77-107 | the compiled buckets together hold exactly as many entries as the map has keys |
| Deserialize.DuplicateRejectedBeforeParse | src/dsl/deserialize.rs:78-80 | a key string already seen is rejected with "duplicate lhs" before it is parsed |
| Deserialize.EmptyMapCompiles | src/dsl/deserialize.rs:73-109 | an empty map compiles to `Object::default()` |
| Lexical.OperatorKind | fluvio-jolt/src/dsl/tokenizer.rs:83-131 | exactly the twelve special characters other than the backslash are operators, each with its own token kind |
| Lexical.OperatorCharKind | src/dsl/tokenizer.rs:77-88 | each operator token kind stands for one character, which maps back to it |
| Lexical.Scan | fluvio-jolt/src/dsl/tokenizer.rs:72-139 | no token exactly at the end of the input; an operator token consumes its one character; a key token is non-empty and ends at the end or an operator; every token is positioned at its byte offset |
| Lexical.ScanKey | fluvio-jolt/src/dsl/tokenizer.rs:39-57 | a key run never moves backwards and stays inside the input |
| Lexical.ScanKeyEnds | fluvio-jolt/src/dsl/tokenizer.rs:39-57 | a key run stops at the end of the input or before an operator character, and consumes at least one character when it starts at a non-operator |
| Lexical.ScanKeyEscape | fluvio-jolt/src/dsl/tokenizer.rs:25-44 | `\X` adds `X` to the key when X is special, and its error otherwise |
| Lexical.LexRender | fluvio-jolt/src/dsl/tokenizer.rs:39-57 | rendering the tokens of a successful scan (operators as their character, keys with a backslash before each special character) reproduces the input exactly |
| Lexical.ScanRender | fluvio-jolt/src/dsl/tokenizer.rs:72-139 | each token renders to exactly the text it was read from |
| Lexical.LexPositions | src/dsl/tokenizer.rs:26-47 | every token's position is the byte length of the input before it |
| Lexical.LexKeysWellFormed | fluvio-jolt/src/dsl/tokenizer.rs:39-57 | key tokens are never empty and never adjacent |
| Lexical.EscapedOperatorIsKey | fluvio-jolt/src/dsl/tokenizer.rs:43-44 | `\.` is a key holding a dot |
| Lexical.EscapeErrors | src/dsl/tokenizer.rs:32-44 | `a\x` fails with `UnexpectedChar('x')` at byte 3, just past the `x`; `a\` (a trailing backslash) fails with `UnexpectedEndOfInput` at byte 2 |
| CharCursor.Chars.constructor | fluvio-jolt/src/dsl/chars.rs:11-17 | a new cursor is at position 0 with an empty buffer |
| CharCursor.Chars.PutBack | fluvio-jolt/src/dsl/chars.rs:19-31 | with the buffer full it is `PutBackBufferFull` and nothing changes; otherwise `c` is buffered and its UTF-8 length is taken off `pos` |
| CharCursor.Chars.Next | fluvio-jolt/src/dsl/chars.rs:33-42 | returns the buffered char if any, else the next input char, else `None` with `pos` unchanged; `pos` grows by the char's UTF-8 length; `None` exactly when the buffer is empty and the input exhausted |
| CharCursor.Chars.Pos | fluvio-jolt/src/dsl/chars.rs:44-46 | `pos` is the byte length of the characters consumed |
| FluvioTokenizer.Tokenizer.constructor | fluvio-jolt/src/dsl/tokenizer.rs:14-19 | a new tokenizer has a fresh cursor at the start of the input and no put-back token |
| FluvioTokenizer.Tokenizer.Escape | fluvio-jolt/src/dsl/tokenizer.rs:25-37 | reads the character after a backslash as `EscapeAt` says: a special character, else `UnexpectedChar`, else `UnexpectedEndOfInput` |
| FluvioTokenizer.Tokenizer.Key | fluvio-jolt/src/dsl/tokenizer.rs:39-57 | returns the key run `ScanKey` describes, positioned at its start, with the stopping operator pushed back (not consumed) |
| FluvioTokenizer.Tokenizer.PutBack | fluvio-jolt/src/dsl/tokenizer.rs:59-70 | stores one token; a second put-back without a `next` in between is `PutBackBufferFull` and changes nothing |
| FluvioTokenizer.Tokenizer.Next | fluvio-jolt/src/dsl/tokenizer.rs:72-139 | returns the put-back token first without reading input; otherwise the token `Scan` gives at the cursor, or `Ok(None)` at the end of input |
| FluvioTokenizer.Tokenizer.Pos | fluvio-jolt/src/dsl/tokenizer.rs:21-23 | the byte offset of the characters consumed |
| PeekTokenizer.Tokenizer.constructor | src/dsl/tokenizer.rs:15-18 | a new tokenizer is at character 0, byte 0 |
| PeekTokenizer.Tokenizer.Advance | src/dsl/tokenizer.rs:20-24 | consumes the next character if any, keeping `byte_idx` equal to the UTF-8 length of what was consumed |
| PeekTokenizer.Tokenizer.OutputSingleChar | src/dsl/tokenizer.rs:26-30 | one token positioned at the byte offset of its character, consuming exactly that character |
| PeekTokenizer.Tokenizer.Escape | src/dsl/tokenizer.rs:32-44 | reads the character after a backslash as `EscapeAt` says |
| PeekTokenizer.Tokenizer.Key | src/dsl/tokenizer.rs:46-69 | returns the key run `ScanKey` describes, positioned at its start byte offset, leaving the stopping special character unconsumed |
| PeekTokenizer.Tokenizer.Next | src/dsl/tokenizer.rs:75-91 | returns what `Scan` says; `None` exactly when the input is exhausted |
| Expr.Expect | src/expr.rs:313-320 | `assert_next` consumes exactly one character when it succeeds |
| Expr.ExpectChar | src/expr.rs:313-320 | `assert_next` succeeds exactly when the next character is the expected one; at the end of the input it is `UnexpectedEof`, on another character `WrongCharacter` |
| Expr.SigilArgsFrom | src/expr.rs:190-198 | `parse_amp`/`parse_dollar_sign` succeed only when the input starts with their own sigil, which they consume before the arguments, and never read past the end |
| Expr.DigitsEnd | src/expr.rs:296-304 | the maximal run of ASCII digits from the cursor |
| Expr.IndexFrom | src/expr.rs:294-311 | a successful read consumes at least one digit and returns a value that fits in `usize` |
| Expr.AmpOrDsFrom | src/expr.rs:200-220 | the arguments of `&`/`$` are read inside the input; the short forms may consume nothing |
| Expr.AtKeyFrom | src/expr.rs:177-185 | a successful key read consumes at least the closing `)` |
| Expr.AtFrom | src/expr.rs:167-188 | `@` and its arguments are consumed, at least one character |
| Expr.SquareLhsFrom | src/expr.rs:156-165 | `#` consumes the rest of the input, at least one character |
| Expr.FirstOperator | src/expr.rs:231-258 | the first of `*` and `\|` in the text, or none exactly when neither occurs |
| Expr.KeyEnd | src/expr.rs:108-124 | key text runs up to the first `&`, `@`, `[` or `.`, or the end |
| Expr.IndexOpFrom | src/expr.rs:126-154 | a bracketed index operator consumes at least one character |
| Expr.RhsEntryFrom | src/expr.rs:90-102 | every RHS entry consumes at least one character, so `parse_rhs` terminates on every input |
| Expr.LhsFormFrom | src/expr.rs:72-78 | every LHS form consumes at least one character |
| Expr.FirstOperatorSnoc | src/expr.rs:231-273 | after one more character is read, the first operator stays once found, and otherwise the new character is it if it is `*` or `\|` |
| ExprParser.Parser.constructor | src/expr.rs:63-67 | a new parser is at the start of the input |
| ExprParser.Parser.AssertNext | src/expr.rs:313-320 | the method does what `Expect` says |
| ExprParser.Parser.ParseIndex | src/expr.rs:294-311 | the digit loop does what `IndexFrom` says |
| ExprParser.Parser.ParseAmpOrDs | src/expr.rs:200-220 | does what `AmpOrDsFrom` says |
| ExprParser.Parser.ParseAmp | src/expr.rs:195-198 | `&` then `parse_amp_or_ds` |
| ExprParser.Parser.ParseDollarSign | src/expr.rs:190-193 | `$` then `parse_amp_or_ds` |
| ExprParser.Parser.ParseAt | src/expr.rs:167-188 | the loop does what `AtFrom` says |
| ExprParser.Parser.ParseSquareLhs | src/expr.rs:156-165 | does what `SquareLhsFrom` says |
| ExprParser.Parser.ParseKeySelection | src/expr.rs:222-292 | the `Literal`/`Pipe`/`Stars` state machine consumes the rest of the input and returns `SelectionOf` it: a literal without `*` or `\|`; otherwise the first operator picks the mode and the text is split on it alone; `["",""]` collapses to `Star` |
| ExprParser.Parser.ParseKey | src/expr.rs:108-124 | consumes exactly the key text up to `KeyEnd` and returns it |
| ExprParser.Parser.ParseIndexOp | src/expr.rs:126-154 | does what `IndexOpFrom` says |
| ExprParser.Parser.ParseRhsEntry | src/expr.rs:91-100 | one loop iteration of `parse_rhs` does what `RhsEntryFrom` says |
| ExprParser.Parser.ParseRhs | src/expr.rs:87-106 | the loop collects the entries `RhsEntriesFrom` gives, consuming the whole input, or stops at the first error |
| ExprParser.Parser.ParseLhs | src/expr.rs:69-85 | empty input is `EmptyExpr`, the first character picks the form, and a leftover character is `UnexpectedCharacter` |
| ExprParser.ParseLhsText | src/expr.rs:19-23 | `Lhs::parse` returns `LhsOf` |
| ExprParser.ParseRhsText | src/expr.rs:52-56 | `Rhs::parse` returns `RhsOf` |
| ExprRender.IndexAt | src/expr.rs:294-311 | a number printed in decimal reads back as itself, or as `IndexTooLarge` when it does not fit |
| ExprRender.AtKeyAt | src/expr.rs:177-185 | a key without `)` followed by `)` reads back as itself |
| ExprRender.SelectionRoundTrip | src/expr.rs:222-292 | printing a well-formed key selection and reading it back gives it back |
| ExprRender.SelectionTextOf | src/expr.rs:222-292 | printing the selection read from any key text gives the text back, so distinct texts give distinct selections |
| ExprRender.SelectionStar | src/expr.rs:284-288 | the selection is `Star` exactly for the text `*` |
| ExprRender.SelectionOfWellFormed | src/expr.rs:222-292 | every selection the state machine returns is well-formed (`Stars` never `["",""]`, fragments free of the mode's operator) |
| ExprRender.DollarSignRoundTrip | src/expr.rs:190-220 | `$(a,b)` parses to `DollarSign(a,b)` for every `a`, `b` that fit in `usize` |
| ExprRender.AmpRoundTrip | src/expr.rs:195-220 | `&(a,b)` parses to `Amp(a,b)` |
| ExprRender.AtRoundTrip | src/expr.rs:167-188 | `@` and `@(n,key)` parse back to themselves |
| ExprRender.KeyRoundTrip | src/expr.rs:222-292 | a printed well-formed key selection parses back as an LHS |
| ExprRender.LhsRoundTrip | src/expr.rs:69-85 | printing a well-formed LHS and parsing it gives it back |
| ExprRender.LhsOfWellFormed | src/expr.rs:69-85 | everything `parse_lhs` returns is well-formed |
| ExprRender.IndexOpAt | src/expr.rs:126-154 | a printed index operator reads back as itself |
| ExprRender.EntryAt | src/expr.rs:91-100 | a printed RHS entry followed by a stop reads back as itself |
| ExprRender.RhsEntriesRoundTrip | src/expr.rs:87-106 | printed well-formed entries read back from any position |
| ExprRender.RhsRoundTrip | src/expr.rs:87-106 | printing well-formed RHS entries and parsing them gives them back |
| ExprRender.EntryFromWellFormed | src/expr.rs:90-102 | every entry read is well-formed; a key is followed by a stop or the end; `@` alone comes only at the end |
| ExprRender.RhsEntriesWellFormed | src/expr.rs:87-106 | everything `parse_rhs` returns is well-formed: keys non-empty, free of `&@[.` and never adjacent; empty input gives no entries |
| ExprRender.RhsOfWellFormed | src/expr.rs:52-56 | `Rhs::parse` results are well-formed |
| ExprTests.AmpFullExample | src/expr.rs:493-500 | `&(110,12)` is `Amp(110,12)` |
| ExprTests.DollarSignFullExample | src/expr.rs:520-527 | `$(10,12)` is `DollarSign(10,12)` |
| ExprTests.ShortFormExamples | src/expr.rs:475-509 | `&` and `$` alone are `(0,0)` |
| ExprTests.AmpMediumExample | src/expr.rs:484-491 | `&12` is `Amp(12,0)` |
| ExprTests.AtExamples | src/expr.rs:457-473 | `@` is `At(None)`; `@(0,qwe)` is `At(Some((0,"qwe")))` |
| ExprTests.SquareExample | src/expr.rs:348-355 | `#` keeps the rest verbatim, newline included |
| ExprTests.LiteralKeyExample | src/expr.rs:357-364 | text without `*` or `\|` is a literal key |
| ExprTests.StarExample | src/expr.rs:366-373 | `*` alone is `Star` |
| ExprTests.StarsExample | src/expr.rs:375-386 | `qwe*asd*zxc` is `Stars(["qwe","asd","zxc"])` |
| ExprTests.PipeExample | src/expr.rs:416-427 | `qwe\|asd\|zxc` is `Pipe(["qwe","asd","zxc"])` |
| ExprTests.LhsErrorExamples | src/expr.rs:69-82 | empty input is `EmptyExpr`, `&x` is `UnexpectedCharacter('x')`, `@(` is `EmptyNumber` |
| ExprTests.RhsKeyExample | src/expr.rs:623-634 | `hello.world[13]` is `Key("hello"), Dot, Key("world"), Index(Literal(13))` |
| Pointer.Rooted | src/pointer.rs:9-14 | `new` makes the first entry `""`, adding one only when it is missing, and keeps the given entries |
| Pointer.DotEntries | src/pointer.rs:16-18 | a pointer from dot notation is rooted |
| Pointer.ParentEntries | src/pointer.rs:24-28 | a parent is rooted |
| Pointer.VarIndex | src/pointer.rs:52-53 | an entry is a variable only when it is `&` followed by more text, and its index fits in `usize` |
| Pointer.Substituted | src/pointer.rs:50-60 | substitution never changes the number of entries |
| Pointer.JsonPointer.constructor | src/pointer.rs:9-14 | `new` stores `Rooted(entries)` |
| Pointer.JsonPointer.FromDotNotation | src/pointer.rs:16-18 | splits on `.` and roots the pieces |
| Pointer.JsonPointer.Push | src/pointer.rs:20-22 | appends one entry at the end, which becomes the leaf name |
| Pointer.JsonPointer.Parent | src/pointer.rs:24-28 | a fresh pointer with the last entry dropped, rooted again |
| Pointer.JsonPointer.LeafName | src/pointer.rs:34-36 | the last entry, or `""` when there is none |
| Pointer.JsonPointer.JoinRfc6901 | src/pointer.rs:44-46 | joining with `/` from the root puts one `/` before each entry below the root, with no `~0`/`~1` escaping |
| Pointer.JsonPointer.SubstituteVars | src/pointer.rs:50-60 | the in-place loop replaces each entry as `SubstEntry` says and keeps the pointer rooted |
| Pointer.JoinRooted | src/pointer.rs:44-46 | joining `""` and the entries with `/` gives `/e1/e2…` |
| Pointer.RootedKeeps | src/pointer.rs:9-14 | `new` does not add a second root to a rooted list, so it is idempotent |
| Pointer.DotLeadingDot | src/pointer.rs:16-18 | `"a.b"` and `".a.b"` give the same pointer |
| Pointer.ParentOfPush | src/pointer.rs:20-28 | the parent of a pushed pointer is the pointer; the parent of the root is the root |
| Pointer.ParentLength | src/pointer.rs:24-28 | a parent is a prefix one entry shorter, down to the root |
| Pointer.JoinSplitEntries | src/pointer.rs:44-46 | the joined text splits back on `/` into the entries when no entry holds `/` |
| Pointer.SubstVariable | src/pointer.rs:52-55 | `&N` with `N` in range becomes `bindings[N]` |
| Pointer.SubstOnlyVariables | src/pointer.rs:51-58 | an entry changes only when it is `&N` with a binding for `N`, and then it becomes that binding |
| Pointer.SubstNothing | src/pointer.rs:51-58 | with no bindings, or no variable entries, substitution changes nothing |
| Pointer.RootKept | src/pointer.rs:51-58 | substitution keeps the root entry |
| PointerTests.RootLevelExamples | src/pointer.rs:73-88 | `a.b` and `.a.b` both give `"", a, b`; `new` keeps `["", a]` and turns `[c, a]` into `["", c, a]` |
| PointerTests.DotExample | src/pointer.rs:93 | `a.b.c.d` gives entries `"", a, b, c, d` |
| PointerTests.ParentExamples | src/pointer.rs:90-108 | the five parents of `a.b.c.d`, down to the root and past it |
| PointerTests.JoinExamples | src/pointer.rs:103-107 | those parents join as `/a/b/c`, `/a/b`, `/a` and `""` |
| PointerTests.SubstituteExample | src/pointer.rs:110-121 | `.&2.&1.&0` with bindings `d, e, g` becomes `/g/e/d` |
| PointerTests.SubstituteUnchangedExamples | src/pointer.rs:123-160 | no variables, empty bindings and an out-of-range index leave the entries unchanged |
| PointerTests.SubstituteDottedExamples | src/pointer.rs:110-160 | the dotted paths of the substitution tests as entries |
| SpecIter.Names | src/spec.rs:268-269 | the names of the stack frames, bottom first |
| SpecIter.SpecIterator.constructor | src/spec.rs:241-246 | a new iterator has one frame, the spec with index 0 and name `""`, and will yield exactly `Leaves(spec, [""])` |
| SpecIter.SpecIterator.Next | src/spec.rs:251-275 | `None` iff nothing is left to yield, and then the stack is empty; otherwise a fresh pointer and the value of the next leaf in document order, with the rest still pending |
| SpecIter.LeavesSound | src/spec.rs:253-272 | every listed leaf sits under the starting pointer and is reached by its names, array children by decimal index and object children by key |
| SpecIter.LeavesComplete | src/spec.rs:253-272 | every scalar reached by a path of names is listed |
| SpecIter.LeavesDistinct | src/spec.rs:253-272 | in a tree without repeated object keys, no two listed leaves share a pointer, so each leaf is yielded once |
| SpecIter.LeavesScalars | src/spec.rs:267-272 | only values that are neither arrays nor objects are yielded |
| SpecIter.LeavesBase | src/spec.rs:253-272 | a scalar root yields exactly `([""], root)`; empty arrays and objects yield nothing |
| SpecIterTests.DocumentOrder | src/spec.rs:312-351 | a nested spec enumerates depth first, fields in order, array elements under their index |

## Left out

- The serde glue is not modelled. It covers the `Deserialize` impls, the `deserialize_str` plumbing and the `TransformSpec`/`SpecEntry` tag dispatch of `src/spec.rs`. `Deserialize.Compile` works on a plain key/value list (`SpecMap`), and the LHS/RHS parsers it calls are passed in as `Parsers`, because the fluvio-jolt snapshot's token-level parser is not part of this model.
- Deserialize.Compile: serde's `Map` iteration order is not shown, so objects are association lists in the order given. Nothing proved depends on a particular order.
- Numbers are integers. Floating-point values, `Number::to_string` for floats and `as_u64` on non-integers are not modelled.
- ShiftEval.AsIndex: a negative or fractional number is an `InvalidIndexVal` error, and only the integer case is modelled.
- Shift.Walk.InsertValToRhs: the source moves a `&mut` cursor into the output. The model rebuilds the output along the resolved steps (`ShiftInsert.Put`), which gives the same tree. On error the source may leave a partly written output, but `Shift::apply` then discards it, so only the error is modelled.
- Pointer.JsonPointer.JoinRfc6901: the source does not apply the `~0`/`~1` escaping of section 3 of RFC 6901, and neither does the model.
- Pointer.JsonPointer.SubstituteVars: bindings are strings, the result of `ToString` on the source's generic bindings.
- SpecIter.SpecIterator.Next: the yielded values are the JSON values themselves, not references into the spec.
- CharCursor.Chars.PutBack: it requires that `pos` does not underflow when the buffer is empty. The source would panic in that case, and its tokenizer only ever puts back the character it just read.
- `src/shift.rs`, `src/dsl/parser.rs`, `src/expr/parser.rs`, `src/default.rs`, `src/remove.rs` and `src/lib.rs` are not part of this model. They are unfinished, do not compile, or are generated from a grammar that is not shown.
- The host, test and benchmark plumbing is not modelled: smartmodule, fixture loading, benches and fuzz targets.
- The tokenizer-based parser of the fluvio-jolt snapshot is not part of this model.
