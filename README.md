# twelf-nes core, modelled in Dafny

This project models the sequential logic of the twelf-nes repository:

- **forth-elf, stepping elaborator** (`forth-elf/src/state.ts`, `forth-elf/src/parse.ts`).
  A Forth-like surface language for LF signatures is split into words and tokenised.
  Each token is then executed against an immutable `State`, which holds a value stack of
  `(term : class)` pairs, a metacontext of binder contexts and a signature.
  `run` collects the trace of states that the debugger steps through.
  Modules `Lexing`, `Parse` and `Stepper`.
- **forth-elf, imperative prototype** (`forth-elf/src/felf.ts`).
  One mutable interpreter state uses de Bruijn-indexed variables.
  A constant is "called" by replaying the program recorded when it was defined,
  which grabs and checks its arguments.
  Module `Felf`: pure functions for the expression helpers and for the meaning of each
  token, and the class `Felf.Interpreter` for the mutable state and its loops.
  A worked example is in module `FelfScenarios`.
- **debugger cursor helpers** (`forth-elf/src/app-state.ts`, `program-counter.ts`, `range.ts`).
  Modules `AppStates`, `ProgramCounter` and `Ranges`.
- **bitmap encoders**.
  `iie/twelf-image.js` turns a 140 x 192 grey-map into Apple II hi-res screen bytes (module `TwelfImage`).
  `scripts/img2chr.js` turns a 128 x 128 grey-map into NES pattern-table data (module `Img2Chr`).
  Module `Bits` holds the bit packing they share.

Functions that copy-on-write (`execInstruction`, `stepForward`, `nextStep`, ...) are Dafny functions over datatypes.
The loops of the source (`parse`, `formPi`, `run`, `interp`, `runCid`, the pixel, dot and byte loops, `emit_plane`)
are methods, each proved equal to a specification function.
Properties are then proved about those functions.
Exceptions become `Result`/`Outcome` values.
File reading becomes a text parameter, and console output is dropped.

Points where the model follows particular behaviour of the source:

- `flatten` throws on a `pi` (state.ts:139-153). `Stepper.Flatten` is undefined (`None`) there.
  `Stepper.ExecInstruction` requires the invariant `Wf`: no class on the stack contains a `pi`.
  That invariant holds initially and every instruction keeps it, so reachable states never reach the throw.
- `run` stops after 100 iterations (state.ts:327).
- `[` and `]`, and every instruction without a case of its own, only record an "unimplemented instruction" error (state.ts:311).
- `parse.ts` first splits at `\n`, then removes comments, then splits at whitespace.
  `\n` is whitespace and also ends a `#` comment, so this is the same as removing comments from the whole text and then splitting.
  `Lexing.Words` models it that way.
  The identical `parse` in `state.ts` is modelled once.

## Model

| member | source | states |
|---|---|---|
| Lexing.StripFrom | forth-elf/src/parse.ts:5 | removing `#`-to-end-of-line comments leaves no `#` and never lengthens the text |
| Lexing.StripCommentsNoHash | forth-elf/src/parse.ts:5 | text without `#` is left unchanged by comment removal |
| Lexing.SplitWs | forth-elf/src/parse.ts:6 | `split(/\s+/)` yields at least one piece and no piece contains whitespace |
| Lexing.NonEmpty | forth-elf/src/parse.ts:7 | the filter keeps only non-empty words, each drawn from its input |
| Lexing.NonEmptyAppend | forth-elf/src/parse.ts:7 | filtering a concatenation is the concatenation of the filtered parts, so the order of the words is kept |
| Lexing.NonEmptySingle | forth-elf/src/parse.ts:7 | one piece is dropped exactly when it is empty |
| Lexing.NonEmptyKeeps | forth-elf/src/parse.ts:7 | every non-empty piece survives the filter |
| Lexing.Words | forth-elf/src/parse.ts:4-7 | every word that reaches the tokeniser is non-empty and free of whitespace and `#` |
| Lexing.SplitUnwords | forth-elf/src/parse.ts:6 | splitting words joined by single spaces gives the words back |
| Lexing.WordsUnwords | forth-elf/src/parse.ts:4-7 | the word splitter reads back any list of words joined by spaces |
| Parse.Parse | forth-elf/src/parse.ts:3-25 | the tokenising loop, with its pending name and the index skipped after `:`, computes `Tokenize(Words(input))` |
| Parse.TokenizeWithoutColon | forth-elf/src/parse.ts:10-22 | without `:`, each word gives exactly one token: the keyword's token, or `id` carrying the word, with no name |
| Parse.TokenCount | forth-elf/src/parse.ts:10-22 | there are never more tokens than words, and as many exactly when there is no `:` |
| Parse.TokenCountExact | forth-elf/src/parse.ts:10-22 | one token per word, except that a `:` in command position removes itself and the word after it, or only itself when it is the last word |
| Parse.NameSurvives | forth-elf/src/parse.ts:17-19 | a pending name survives any run of words other than `:`, `>` and `.`, which become their plain tokens; the next `>` or `.` carries it and afterwards no name is pending |
| Parse.NamedAfterNeutral | forth-elf/src/parse.ts:17-19 | `: n`, then such words, then `>` or `.` names that token `n` whatever was pending before (`: n type >` gives `type` and `>` named `n`) |
| Parse.UnparseTokStep | forth-elf/src/parse.ts:17-19 | `: n` before `>` or `.` attaches `n` to that token and the name is cleared after it |
| Parse.TokenizeUnparse | forth-elf/src/parse.ts:10-23 | printing a token list and tokenising the words gives the tokens back |
| Parse.UnparseWords | forth-elf/src/parse.ts:4-7 | printed tokens are words the splitter keeps intact |
| Parse.ParseOfPrinted | forth-elf/src/parse.ts:3-25 | the whole parse reads back the printed text of any token list it can produce |
| Stepper.MkState | forth-elf/src/state.ts:72-83 | the initial state satisfies the invariant and carries no error |
| Stepper.PopStack | forth-elf/src/state.ts:110-118 | returns the top entry and the state without it, or nothing on an empty stack |
| Stepper.PopMeta | forth-elf/src/state.ts:120-128 | returns the top metacontext frame and the state without it, or nothing when empty |
| Stepper.FormPi | forth-elf/src/state.ts:130-136 | the loop builds `PiFold(ctx, term)` and keeps the base class |
| Stepper.PiFoldShape | forth-elf/src/state.ts:130-136 | one `pi` per context entry, the last entry outermost, the base term innermost |
| Stepper.FlattenDefined | forth-elf/src/state.ts:139-153 | `flatten` succeeds exactly on `pi`-free expressions |
| Stepper.FlattenSpineDefined | forth-elf/src/state.ts:144-151 | a spine flattens exactly when all its arguments are `pi`-free |
| Stepper.ExprEqualSanity | forth-elf/src/state.ts:155-159 | `exprEqual` is reflexive on `pi`-free expressions and tells `o` from `k` |
| Stepper.ExprEqualIsCoarse | forth-elf/src/state.ts:144-159 | comparing flattened names identifies `f (g a)` with `f g a` and constants with variables of the same name |
| Stepper.FlattenConst | forth-elf/src/state.ts:144-147 | a constant without arguments flattens to its own name |
| Stepper.ExprEqualO | forth-elf/src/state.ts:155-159 | an expression equals `o` exactly when it flattens to the single name `o` |
| Stepper.ExecDot | forth-elf/src/state.ts:168-183 | keeps the invariant, pc, tokens and control stack; any new error is a non-empty message |
| Stepper.ExecBind | forth-elf/src/state.ts:257-273 | keeps the invariant, pc, tokens and control stack; any new error is a non-empty message |
| Stepper.ExecClose | forth-elf/src/state.ts:286-309 | keeps the invariant, pc, tokens and control stack; any new error is a non-empty message |
| Stepper.ExecId | forth-elf/src/state.ts:185-255 | keeps the invariant, pc, tokens and control stack; any new error is a non-empty message |
| Stepper.ExecInstruction | forth-elf/src/state.ts:162-314 | every instruction keeps the invariant and leaves pc, tokens and control stack alone; errors are non-empty |
| Stepper.TypeStep | forth-elf/src/state.ts:164-166 | `type` pushes exactly `(type : kind)` and changes nothing else |
| Stepper.DotStep | forth-elf/src/state.ts:168-183 | `.` errors on an empty stack or a non-classifier and otherwise pops one entry and appends one signature entry named by the token or `_` |
| Stepper.OpenStep | forth-elf/src/state.ts:275-284 | `(` pushes one empty binder context |
| Stepper.BindStep | forth-elf/src/state.ts:257-273 | `>` errors on an empty stack, an empty metacontext or a `sub` frame, and otherwise moves the top entry into the innermost context, other frames and the signature untouched |
| Stepper.CloseStep | forth-elf/src/state.ts:286-309 | `)` needs a classifier and a context, pops both and pushes the folded `pi` with the same class |
| Stepper.ConstantSteps | forth-elf/src/state.ts:187-209 | `o`, `l` and `k` push their constants with classes `type`, `o`, `o` |
| Stepper.SuccStep | forth-elf/src/state.ts:211-225 | `s` pops an entry of class `o` and pushes `s t : o`, and errors otherwise |
| Stepper.PairStep | forth-elf/src/state.ts:227-250 | `b` pops two entries of class `o` and pushes `b t1 t2 : type`, the former top first, and errors otherwise |
| Stepper.UnimplementedSteps | forth-elf/src/state.ts:251-253 | any other identifier, and `[`, `]`, only record an "unimplemented" error |
| Stepper.EmptyProgramCrashes | forth-elf/src/state.ts:316-323 | as written, stepping a program without tokens crashes |
| Stepper.StepForward | forth-elf/src/state.ts:316-323 | no successor iff there is an error or the pc would pass the tokens; otherwise it executes `toks[pc]`, moves the pc by one and agrees with the code wherever the code does not crash |
| Stepper.StepForwardCrashOnly | forth-elf/src/state.ts:316-323 | the code as written crashes exactly when no error is set and the pc is past the tokens |
| Stepper.Run | forth-elf/src/state.ts:325-335 | the run loop returns `Trace(s0, 100)` |
| Stepper.TraceShape | forth-elf/src/state.ts:316-335 | the trace starts with the initial state, has 1 to 100 states, consecutive states are related by `stepForward`, pcs go up by one, only the last state may carry an error, and a short trace ends without a successor |
| Stepper.TraceWithinTokens | forth-elf/src/state.ts:316-335 | a trace never has more states than tokens, so the last token's effect is never shown |
| Stepper.ScenarioTypeO | forth-elf/src/state.ts:164-183 | `type : o .` is traced as the initial state and the state after `type` only |
| Felf.ReplaceEliminates | forth-elf/src/felf.ts:47-61 | after `replaceWithVar` the replaced constant no longer occurs |
| Felf.ReplaceAbsent | forth-elf/src/felf.ts:47-61 | where the constant does not occur (in particular `type`, `kind`, variables) nothing changes |
| Felf.ReplaceUnderBinders | forth-elf/src/felf.ts:47-61 | under `k` Pi codomains the constant becomes variable `n + k`: `n` grows only for codomains |
| Felf.AbsDctxShape | forth-elf/src/felf.ts:205-210 | `absDctx([], e) == e`; one `pi` per entry, entry `k` the `k`-th binder from the outside |
| Felf.AbsDctxAppend | forth-elf/src/felf.ts:205-210 | abstracting over `d1 + d2` is abstracting over `d2` and then `d1` |
| Felf.FlattenDefined | forth-elf/src/felf.ts:116-127 | `flatten` succeeds exactly on expressions built from `type`, `kind` and known constants |
| Felf.FlattenSpineDefined | forth-elf/src/felf.ts:121-124 | a spine flattens exactly when every argument does |
| Felf.AssertEqualDomain | forth-elf/src/felf.ts:129-138 | `assertEqual` rejects `pi` and variables on either side, and passes only when both sides flatten |
| Felf.ProgramOkSnoc | forth-elf/src/felf.ts:241-275 | recording an instruction keeps the program well formed and counts its arrows |
| Felf.Spine | forth-elf/src/felf.ts:181 | the spine lists the grabbed arguments oldest first |
| Felf.ExecFromArity | forth-elf/src/felf.ts:144-168 | a successful replay grabs one argument per recorded `→` |
| Felf.ArrowInstr | forth-elf/src/felf.ts:149-160 | a replayed `→` fails on an empty or one-entry stack with the two underflow messages; otherwise it pops `v1` and `v2`, fails exactly when `assertEqual(v1.x, v2.k)` fails, and else grabs `v2` as the newest argument and continues without both entries |
| Felf.RunSpecResult | forth-elf/src/felf.ts:140-184 | a successful call requires a classifier `a` on top after the replay and replaces it by the constant applied to the grabbed arguments, oldest first and one per `→`, with class `a.x`; the entries below are those the replay left |
| Felf.FindDctx | forth-elf/src/felf.ts:264 | `findIndex` on the definition context: the oldest binding of the name, or none, and then no binding carries the name |
| Felf.FindSig | forth-elf/src/felf.ts:271 | `findIndex` on the signature: the first entry of the name, or none, and then no entry carries the name |
| Felf.LookupSpec | forth-elf/src/felf.ts:263-279 | an identifier lookup keeps the interpreter invariant |
| Felf.Step | forth-elf/src/felf.ts:215-283 | every token keeps the interpreter invariant and moves forward in the input |
| Felf.InterpKeepsInvariant | forth-elf/src/felf.ts:212-284 | every state `interp` reaches keeps the invariant |
| Felf.TypeToken | forth-elf/src/felf.ts:241-244 | `type` records a `type` instruction and pushes `(type : kind)` |
| Felf.ArrowToken | forth-elf/src/felf.ts:250-261 | `→` fails on underflow or a non-classifier, and otherwise pops it into the context under the current name, records `→` and resets the name to `_` |
| Felf.CloseToken | forth-elf/src/felf.ts:225-239 | `}` pops a classifier and appends the entry named by the next word, its class abstracted over the context, its program the recorded one; context and program are emptied |
| Felf.IdentToken | forth-elf/src/felf.ts:263-279 | any word other than `{`, `}`, `type`, `:` and `→` is handed to the identifier lookup, and the loop moves past it |
| Felf.LookupInContext | forth-elf/src/felf.ts:264-269 | a name bound in the definition context records `deb` with index 0 for the most recent binding and pushes the variable with its bound class; among several bindings of the name the oldest is used |
| Felf.LookupInSignature | forth-elf/src/felf.ts:271-276 | a name absent from the context but present in the signature records `call` of the first constant of that name and replays it, failing exactly when the replay fails |
| Felf.LookupMissing | forth-elf/src/felf.ts:278 | a name found in neither fails with "<name> not found" |
| Felf.Interpreter.constructor | forth-elf/src/felf.ts:39-45 | the initial state: everything empty, the name `_` |
| Felf.Interpreter.RunCid | forth-elf/src/felf.ts:140-184 | the replay succeeds exactly when `RunSpec` does and then leaves its stack, fails with `RunSpec`'s message otherwise; only the stack changes |
| Felf.Interpreter.ExecInstr | forth-elf/src/felf.ts:144-167 | one instruction of the replay takes the stack and argument list one step along `ExecFrom`, or fails with its message |
| Felf.Interpreter.Finish | forth-elf/src/felf.ts:170-182 | the end of a replay fails on an empty stack or a non-classifier top, and otherwise replaces the top with the application of the constant to the grabbed arguments, classified by the old top |
| Felf.Interpreter.Interp | forth-elf/src/felf.ts:212-284 | the interpreter loop succeeds exactly when `InterpFrom` does and then reaches its state |
| Felf.Interpreter.StepAt | forth-elf/src/felf.ts:216-281 | one pass of the loop performs `Step` |
| Felf.Interpreter.CloseBrace | forth-elf/src/felf.ts:225-239 | the `}` case, its failures and its new state |
| Felf.Interpreter.Bind | forth-elf/src/felf.ts:250-261 | the `→` case, its failures and its new state |
| Felf.Interpreter.Lookup | forth-elf/src/felf.ts:263-279 | the identifier case performs `LookupSpec` |
| FelfScenarios.ApplicationChecks | forth-elf/src/felf.ts:140-284 | declaring `o`, `z : o` and `f : o → type` and checking `f z` gives the expected signature and leaves `f z : type` |
| FelfScenarios.CallsF | forth-elf/src/felf.ts:149-182 | the arrow of `f` checks the argument's class against its domain and builds `f z` |
| AppStates.MkAppState | forth-elf/src/app-state.ts:9-15 | frame 0 and the trace of the parsed input, which starts with the initial state |
| AppStates.BlankInput | forth-elf/src/state.ts:316-323 | with no words in the input there are no tokens, and the corrected run shows the initial state alone |
| AppStates.NextStep | forth-elf/src/app-state.ts:22-28 | at or past the last frame nothing changes, otherwise the frame goes up by one; the states are untouched |
| AppStates.PrevStep | forth-elf/src/app-state.ts:30-36 | at frame 0 or below nothing changes, otherwise the frame goes down by one; the states are untouched |
| AppStates.StepsKeepBounds | forth-elf/src/app-state.ts:22-36 | both keep the frame inside the trace |
| AppStates.StepsUndo | forth-elf/src/app-state.ts:22-36 | a step back undoes a step forward and vice versa, away from the ends |
| AppStates.ForwardClamps | forth-elf/src/app-state.ts:22-28 | `k` steps forward reach frame `min(frame + k, last)` |
| ProgramCounter.PcEqualOnTokStream | forth-elf/src/program-counter.ts:2-5 | for a token-stream pc, equal exactly to a token-stream pc with the same index |
| ProgramCounter.PcEqualNotReflexive | forth-elf/src/program-counter.ts:2-5 | as written, a signature-entry pc is not equal to itself |
| ProgramCounter.PcEqualFixedIsEquality | forth-elf/src/program-counter.ts:2-5 | the completed comparison is exactly equality and agrees with the code on token-stream pcs |
| ProgramCounter.IsExactTokMeans | forth-elf/src/program-counter.ts:8-10 | holds exactly for the token-stream pc with that index |
| ProgramCounter.PcNext | forth-elf/src/program-counter.ts:12-17 | keeps the variant and `sigIx`, adds one to the index |
| ProgramCounter.PcPrev | forth-elf/src/program-counter.ts:20-25 | keeps the variant and `sigIx`, subtracts one from the index |
| ProgramCounter.PrevNextInverse | forth-elf/src/program-counter.ts:12-25 | `pcPrev` and `pcNext` undo each other |
| ProgramCounter.ExactTokNext | forth-elf/src/program-counter.ts:8-17 | `pcNext` moves exactness from index `i` to `i + 1` |
| Ranges.EndpointsIncluded | forth-elf/src/range.ts:3-5 | both endpoints of a non-empty range are in it |
| Ranges.OutsideExcluded | forth-elf/src/range.ts:4 | nothing below `first` or above `last` is in range |
| Ranges.InvertedIsEmpty | forth-elf/src/range.ts:4 | a range with `first > last` is empty |
| Ranges.SingletonRange | forth-elf/src/range.ts:4 | `{n, n}` holds exactly `n` |
| Ranges.Members | forth-elf/src/range.ts:3-5 | a reference enumeration for `in_range`, not a source function: `last - first + 1` indices in order, all and only those `in_range` accepts |
| Bits.LsbPackSnoc | iie/twelf-image.js:48-51 | adding dot `b` adds `dot << b` |
| Bits.LsbPackRange | iie/twelf-image.js:48-52 | `n` packed dots make an `n`-bit number |
| Bits.LsbPackBits | iie/twelf-image.js:48-52 | bit `k` of the packed row is dot `k` |
| Bits.MsbPackRange | scripts/img2chr.js:28-32 | `n` packed pixels make an `n`-bit number |
| Bits.MsbPackBits | scripts/img2chr.js:28-32 | bit `n - 1 - k` of the packed row is pixel `k`, the first pixel the top bit |
| TwelfImage.LeftPad | iie/twelf-image.js:4-7 | the loop prepends `c` exactly `PadCount` times |
| TwelfImage.LeftPadShape | iie/twelf-image.js:4-7 | a long enough string is unchanged; with a one-character pad the result has length `n`, ends with `x` and starts with pad characters only |
| TwelfImage.ColorOf | iie/twelf-image.js:15-20 | `255` is white, `0` black, anything else green |
| TwelfImage.Classify | iie/twelf-image.js:13-21 | one colour per pixel word, in order |
| TwelfImage.PixelDots | iie/twelf-image.js:26-37 | source pixel `(sx, y)` drives dots `2sx` and `2sx + 1`: white both lit, black none, green only the odd one on a checkerboard |
| TwelfImage.FillDots | iie/twelf-image.js:25-39 | the dot loops fill the flattened 280 x 192 grid with `Dot` |
| TwelfImage.PackSeven | iie/twelf-image.js:48-51 | the bit loop packs seven dots, dot `b` at bit `b` |
| TwelfImage.FillBytes | iie/twelf-image.js:42-54 | byte `y * 40 + x` packs dots `7x .. 7x + 6` of row `y` |
| TwelfImage.Convert | iie/twelf-image.js:9-54 | fails exactly when the header is not `P2` or there are not 140 x 192 pixels, and otherwise returns `ScreenBytes` of the pixels |
| TwelfImage.ScreenBytesRange | iie/twelf-image.js:42-53 | every screen byte is in `0..127` |
| TwelfImage.ScreenByteBits | iie/twelf-image.js:45-51 | bit `b` of byte `(x, y)` is the dot at `(7x + b, y)`, and `7x + b` stays within the 280 dots |
| Img2Chr.DigitRun | scripts/img2chr.js:19 | the length of the leading digit run |
| Img2Chr.ParseInt | scripts/img2chr.js:19 | NaN exactly when no digit follows the sign and radix prefix |
| Img2Chr.ParseIntDecimal | scripts/img2chr.js:19 | `parseInt` reads back the decimal spelling of every natural number |
| Img2Chr.QuantizeNearest | scripts/img2chr.js:19 | the quantised colour is the unique integer nearest to `3v/255`, with no ties |
| Img2Chr.QuantizeRange | scripts/img2chr.js:19 | grey levels `0..255` become colours `0..3`, with 0 and 255 at the ends |
| Img2Chr.ReadPixels | scripts/img2chr.js:14-22 | the pixel loops build the 128 x 128 grid, pixel `(x, y)` from word `128y + x` |
| Img2Chr.PlanesEncodeColor | scripts/img2chr.js:30-39 | plane 1 and plane 2 together give back a colour `0..3` |
| Img2Chr.TileRunAt | scripts/img2chr.js:36-41 | byte `j` of tile `t` is output byte `16t + j` |
| Img2Chr.ChrLayout | scripts/img2chr.js:36-41 | the output is 4096 bytes; row `r` of plane `p` of tile `(cx, cy)` is byte `16(16cy + cx) + 8(p - 1) + r` |
| Img2Chr.PlaneRowBits | scripts/img2chr.js:27-33 | every plane byte is in `0..255`, and bit `7 - col` is set iff the pixel in column `col` has the tested bit |
| Img2Chr.ChrWriter.constructor | scripts/img2chr.js:14-24 | the writer starts with the pixel grid and no bytes |
| Img2Chr.ChrWriter.EmitPlane | scripts/img2chr.js:26-34 | `emit_plane` appends exactly the eight bytes of the plane |
| Img2Chr.ChrWriter.EmitAll | scripts/img2chr.js:36-41 | the tile loops append all 256 tiles, `cy` outer and `cx` inner, plane 1 before plane 2 |
| Img2Chr.Convert | scripts/img2chr.js:7-41 | fails exactly when the header is not `P2 128 128 255`, and otherwise returns the tiles of the quantised grid |

## Left out

- The React/KaTeX renderer, the terminal UI, the Express server, serial-port I/O and the C programs are not part of this model.
  `forth-elf/felf.js` does not parse and is not part of this model.
- `forth-elf/src/felf.ts` `doPi` is never called and is left out. `replaceWithVar`, which only it uses, is modelled.
- File reading, `process.argv` and the written `Alpha.chr` become a text parameter and a result. `console.log` tracing is dropped.
- Stepper.Run: built on the corrected `Stepper.StepForward` (see Findings). On blank or comment-only input, where `parse` gives no tokens, the source throws a `TypeError` in `execInstruction` (state.ts:163, reached from state.ts:318); the model returns the initial state alone.
- Stepper.Trace: the same correction; with no tokens the trace is the initial state alone.
- AppStates.MkAppState: the same correction; on blank or comment-only input the model gives `AppState(0, [MkState([])])` where the source throws.
- Felf.Interpreter.RunCid: on failure the source throws with the stack partly consumed. The model says nothing about the state after a failure.
- Felf.Interpreter.Interp: the same; a failing run says nothing about the state it leaves.
- Felf: the message "tried to close-brace non-classifier" omits the JSON dump of the offending entry. The unreachable "ectx pop" check is not modelled.
- Felf: a `}` or `:` at the very end of the input reads `undefined` as the name. The model uses the empty string, which no word can look up either.
- Felf.Flatten: a constant outside the signature throws a `TypeError` in the source. The model returns an error. The interpreter invariant rules this case out.
- Stepper: source ranges of signature and context entries are the source's placeholder `{0, 1}`.
  Names are compared as plain strings, and `JSON.stringify` in messages is not reproduced.
- TwelfImage.Convert: width, height and maximum colour of the header are read but not checked, as in the source.
  The error messages of `assert.equal` are abbreviated.
- TwelfImage.LeftPad: lengths count characters, while `x.length` counts UTF-16 code units; they differ only outside the Basic Multilingual Plane, and the one use of `leftPad` (twelf-image.js:61) is commented out.
- TwelfImage.LeftPad: with an empty pad and a short string the source never returns, so that case is excluded by the precondition.
- Img2Chr.ParseInt: values beyond the double range (`Infinity`) and rounding of very large values in `3 * v / 255` are not modelled. Integers are exact.
- Img2Chr.HeaderOk: `assert.equal(width, 128)` is loose equality, i.e. `Number(width) == 128`.
  The model accepts the decimal spellings (optional sign, digits) and rejects `128.0`, `1.28e2`, `0x80` and the like, which the source would accept.
- Img2Chr.TestBit: `emit_plane` is only called with `bit_to_test` 1 and 2, so only those two are modelled.
  The 32-bit conversion of `&` does not change the two low bits and is not modelled further.

## Findings

| source | as written | input that shows it | evidently intended | confidence | as-written member | corrected member |
|---|---|---|---|---|---|---|
| forth-elf/src/state.ts:316-323 | `stepForward` reads `toks[pc]` and executes it before checking `pc` against the token count, so with no tokens it executes `undefined` | a blank program (`mkState([])`) | no successor when `pc` is past the tokens | medium, not executed | Stepper.EmptyProgramCrashes | Stepper.StepForward |
| forth-elf/src/program-counter.ts:2-5 | `pcEqual` has no `sigEntry` case and returns `undefined` | `pcEqual(sigEntry(0,0), sigEntry(0,0))` is falsy | structural equality of both variants | medium, not executed | ProgramCounter.PcEqualNotReflexive | ProgramCounter.PcEqualFixedIsEquality |
