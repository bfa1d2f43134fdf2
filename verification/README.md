# jsonstream, modelled in Dafny

`jsonstream` turns a JavaScript value into JSON text as a Node `Readable`
stream, without building the whole text in memory. Two pieces do the work,
both in `src/write.ts`:

- the generator `serializer` / `yieldSerialize`. It walks the value depth
  first and yields JSON fragments ("tokens"): `null`, literals, quoted
  strings, `[ ] { } , :`. A `WeakSet` cache holds the arrays and objects on
  the current path, and re-entering one throws
  `"Circular dependency detected"`;
- `JsonStream._read`, which pulls whole tokens from the generator and pushes
  them into the stream until enough has been pushed, `push` reports
  backpressure, or the generator is exhausted.

## How the model is built

- `Values`: a JavaScript value is a scalar (`Null`, `Bool`, `Num`, `Str`),
  one of the two values without JSON text (`Symbol`, `Undefined`), or a
  `Ref` to a container in a heap (`map<Id, Container>`). A container is
  an array or an object whose entries are in `Object.keys` order. Because
  containers live in a heap, shared and cyclic structures can be expressed.
  `Closed(h)` says every reference resolves. `IsPath` and `CyclicFrom`
  define cycles of containment directly on the heap graph.
- `Generator`: `YieldSerialize`, `YieldItems` and `YieldEntries` follow
  the branches of `yieldSerialize` and its two loops. A run is either
  `Done(tokens, cache)` or `Circular(tokens)`. `Circular` carries the
  tokens yielded before the throw. The cache is threaded through the walk
  as a set of ids, just as the `WeakSet` is shared state. The contract
  proves that a completed run gives the cache back unchanged. That proof is
  also what makes the recursion terminate. The measure is the number of
  heap containers not in the cache, and cyclic heaps are included.
- `Reference`: an independent whole-document serializer. It follows the
  ECMAScript `JSON.stringify` algorithm: it keeps a stack list, joins
  members with commas, gives "undefined" for symbols and `undefined`, and
  throws a TypeError on a container already on the stack. It is the oracle
  that the repository's tests compare against.
- `Equivalence`: starting from an empty cache, the generator throws exactly
  when `JSON.stringify` throws. Otherwise its tokens concatenate to
  `JSON.stringify(v) ?? ""`. Generation throws exactly when a cycle can be
  reached from the root.
- `Literals`: the number and string tokens, each with a decoder for the
  grammar of RFC 8259 (section 6 for numbers, section 7 for strings). Each
  token is proved to decode back to the value it was written from.
- `JsonStream`: `Read` is the `_read` loop. `Pump` models successive
  calls. `Serialize` models `serialize(data)` read until the stream ends.

Behaviour worth knowing, modelled as the code has it:

- Object values are peeked. When a property's value is itself a container
  already in the cache, the throw comes from the peek (src/write.ts:61).
  So the `,` and the key are not yielded. An array yields its `,` before
  the element that throws.
- `_read` ends the stream whenever the loop condition
  `readSize < requestedSize` fails. That happens when the generator is
  exhausted. It also happens when the pushed code units land exactly on
  `requestedSize`, or when `requestedSize <= 0`, and in those cases the
  rest of the document is dropped. It can even end a stream quietly before
  a throw that is still to come. With the default options, Node's own
  `push` refuses once the buffer reaches the high-water mark, and that mark
  is the size `_read` is asked for, so the early end cannot happen.
  `RefusesAtRequest` states this assumption. Given it, `Pump` and
  `Serialize` prove that an ended stream has delivered the whole document.
  The constructor passes its `ReadableOptions` on to `Readable`
  (src/write.ts:88-93), and some options break the assumption. With
  `{ highWaterMark: 0 }`, Node calls `_read(0)`, and the stream ends empty.
  With `{ objectMode: true }`, the mark of 16 counts chunks, not code
  units. For `{ abcdefghijklm: 1 }`, the tokens `{` and `"abcdefghijklm"`
  come to exactly 16 units after two accepted pushes, so the stream ends
  after delivering only `{"abcdefghijklm"`.
- Token sizes are JavaScript string lengths, meaning UTF-16 code units.
- `_read` keeps no pending buffer. It pushes whole tokens and may overshoot
  `requestedSize`. Node's internal buffer later slices reads to the exact
  size.

## Model

| member | source | states |
|---|---|---|
| Generator.YieldSerialize | src/write.ts:13-80 | A completed run returns the cache exactly as it found it: containers are added on entry and deleted on exit, so siblings see the same cache. Every token is non-empty. A run completes without a token exactly when the value is a symbol or `undefined` outside an array. Only containers throw. A run throws before yielding anything exactly when it re-enters a container already in the cache. |
| Generator.Serializer | src/write.ts:3-83 | A fresh generator that completes leaves the cache empty. It yields nothing at all exactly for a top-level symbol or `undefined`, matching `JSON.stringify(v) ?? ""`. |
| Generator.ItemsLayout | src/write.ts:39-46 | A completed element loop yields the elements' own runs, in order, with exactly one `,` between neighbours (or before each when not first). Every element completes, and each is serialized from the same cache. |
| Generator.EntriesLayout | src/write.ts:54-74 | A completed key loop yields, in key order, `key`, `:` and the value's tokens for each key whose value yields something. Keys whose value yields nothing are dropped without a comma. Single commas separate the included entries. |
| Generator.ArrayLayout | src/write.ts:36-48 | An array that completes yields `[`, then its elements' runs joined by single commas, then `]`. Every element run is non-empty and is computed from the same cache, so an element held twice serializes in full at both positions. |
| Generator.ObjectLayout | src/write.ts:51-77 | An object that completes yields `{`, then the included `key : value` runs in key order joined by single commas, then `}`. |
| Equivalence.Agree | src/write.ts:17-79 | When the cache is the set of containers on the stack, the generator throws exactly when `JSON.stringify` throws. Otherwise its tokens concatenate to `JSON.stringify`'s text: `null`, literals and quoted strings as single tokens, and `"null"` or nothing for a symbol or `undefined`, depending on whether it is an array element. |
| Equivalence.AgreeArray | src/write.ts:36-48 | An array not on the stack throws exactly when `JSON.stringify` throws on it. Otherwise its tokens spell `[`, the element texts and `]`, as `JSON.stringify` writes them. |
| Equivalence.AgreeObject | src/write.ts:51-77 | An object not on the stack throws exactly when `JSON.stringify` throws on it. Otherwise its tokens spell `{`, the member texts and `}`, as `JSON.stringify` writes them. |
| Equivalence.AgreeItems | src/write.ts:39-46 | The element loop throws exactly when some element throws. Otherwise its tokens spell the element texts joined by commas, with a symbol or `undefined` element written as `null`. |
| Equivalence.AgreeEntries | src/write.ts:55-74 | The key loop throws exactly when some value throws. Otherwise its tokens spell `"key":value` for each key whose value has text, joined by commas, in key order. |
| Equivalence.SerializerMatchesJson | src/write.ts:3-83 | A run completes exactly when `JSON.stringify` returns, and its tokens concatenate to `JSON.stringify(v) ?? ""`. So the length matches too. |
| Equivalence.SerializerThrowsIffCyclic | src/write.ts:6-11 | Generation throws "Circular dependency detected" exactly when a cycle of containment can be reached from the root. Acyclic structures, shared or not, always serialize to the end. |
| Equivalence.SelfReferenceThrows | src/write.spec.ts:70-87 | An array that holds itself, or an object that holds itself, makes generation throw. |
| Reference.ToJsonThrowsIffCyclic | src/write.spec.ts:15-17 | The oracle the tests compare against, `JSON.stringify`, throws exactly when a cycle of containment can be reached from the value. |
| Literals.ParseIntText | src/write.ts:22-25 | The token for an integer number reads back as that number under the integer grammar of section 6 of RFC 8259, so it has no leading zeros. |
| Literals.UnquoteQuote | src/write.ts:18-20 | The token for a string (and for a key, line 70) is a string literal of section 7 of RFC 8259 that decodes to exactly the original string. |
| JsonStream.Read | src/write.ts:97-113 | One `_read` call pushes whole tokens in generator order, starting where the last call stopped. Every push but the last was accepted, and everything before the last token stays under `requestedSize`. It returns without ending exactly when its last push was refused or took the total past `requestedSize`. It ends the stream on exhaustion, on an exact landing on `requestedSize`, or when `requestedSize <= 0`. It fails only once the tokens are exhausted, the run threw, and the code units pushed in this call stay under `requestedSize`. So an exact landing or `requestedSize <= 0` ends the stream quietly, even before a throw that is still to come. |
| JsonStream.Pump | src/write.ts:97-113 | Across calls, what has been pushed is always a prefix of the generator's tokens, so by `Tokens.ConcatPrefix` its text is a prefix of theirs. A failure comes only after every token before the throw was delivered. Under Node's backpressure an ended stream has delivered every token. A stream still open after all the calls has delivered at least one token per call. |
| JsonStream.Serialize | src/write.ts:116-119 | The text a stream delivers is always a prefix of `JSON.stringify(data) ?? ""`. It fails only on cyclic input. Under Node's backpressure an ended stream delivered exactly that text, whatever sizes the reads asked for. More reads than the run has tokens always end or fail the stream. |

## Left out

- Node `Readable` machinery: the internal buffer, slicing `read(n)` to
  exactly `n` bytes, the high-water mark, `pipe`, and the write-to-file
  test. `push`'s answers are a parameter instead. `RefusesAtRequest` names
  the one property of Node's answers that the end-of-stream results use.
- `RefusesAtRequest` does not hold under the options `{ highWaterMark: 0 }`
  or `{ objectMode: true }`. Under those options, the end-of-stream results
  of `JsonStream.Pump` and `JsonStream.Serialize` do not apply, and the
  stream can end before the document is complete. The options themselves
  are not modelled.
- Raising the error into the stream (`destroy`, the `error` event): a
  throw is the `Errored` status of the call that met it.
- Number formatting beyond safe integers: fractions, exponents, `-0`,
  `NaN` and `Infinity` need floating point. `Num` holds integers with
  magnitude at most 2^53 - 1, for which `JSON.stringify` writes the plain
  decimal.
- A whole-document JSON decoder is not modelled, so the round trip
  "decoding the output gives back the input, minus the dropped members" is
  not proved directly. It follows from the proved equality with
  `JSON.stringify` (`Equivalence.SerializerMatchesJson`). Only the number
  and string tokens are decoded (`Literals.ParseIntText`,
  `Literals.UnquoteQuote`).
- Lone surrogates: Dafny characters are Unicode scalar values, so strings
  with unpaired surrogates, and the `\u` escapes `JSON.stringify` writes
  for them, cannot be expressed. The decoder likewise refuses `\u`
  escapes of surrogates.
- Functions, bigints, `toJSON` hooks, getters and other exotic objects are
  not in the value domain; the code reaches its object branch for them only
  by accident.
- How `Object.keys` orders keys (integer-like keys first) is not modelled.
  An object's entries are given already in that order.
- The `typeof key !== "string"` test (src/write.ts:56) never fires on
  what `Object.keys` returns; keys are strings in the model.
- `WeakSet` identity and garbage collection: heap ids stand in for object
  identity.
- Suspension of the generator and the memory it holds: a run is the whole
  list of tokens it would yield, and `_read` consumes it from a position.
  Laziness is visible only through which prefix has been pushed.
- Mutating the input while it is being serialized has no defined
  behaviour, and is not modelled.
- The random value generator `__tests__/random.ts` and the test tooling.
