# Method-call dispatcher of testcafe-hammerhead

testcafe-hammerhead is a URL-rewriting web proxy. It rewrites the scripts of
the pages it serves so that every method call `owner[methName](...args)`
becomes a call of the dispatcher `window[INSTRUCTION.callMethod](owner,
methName, args)`. This project models that dispatcher and the helpers it uses:

- **The gate.** A null or undefined owner is rejected with `Cannot call
  method '<m>' of null|undefined`. A member that is not a function is rejected
  with `'<m>' is not a function`.
- **Overrides.** A string method name that the name filter lets through runs
  the override handler from the `methodWrappers` table, provided the entry's
  condition accepts the owner.
- **Direct calls.** Every other call goes to the member itself through
  `_fastApply`.
- **The six override handlers:**
  - `querySelector` and `querySelectorAll` rewrite `:focus` in the selector
    into an internal attribute selector.
  - `postMessage` hands the call to the message sandbox.
  - `write` and `writeln` drop a trailing internal marker argument.
  - `getComputedStyle` is the Firefox fallback for framed windows. It climbs
    from the frame element, one ancestor per pass, and retries the native call
    after each step. It stops at the first retry that gives a usable style, or
    at the first node without a `tagName`, and then writes the saved
    `style.display` values back. When a retry throws, or the chain runs out
    (reading `tagName` of null throws), nothing is written back and the answer
    is null.

Modules:

- `JsValues`: the slice of JavaScript's value model that the dispatcher
  observes. It covers `typeof`, truthiness, `===` on the modelled values and
  completions.
- `Types`: `isNullOrUndefined` and `inaccessibleTypeToStr`.
- `FocusSelector`: `_replaceFocusPseudoClass`. The regular expression
  `/\s*:focus\b/gi` and the global `String.prototype.replace` are written out
  by hand, including the expansion of the `$` patterns in the replacement
  string.
- `ComputedStyle`: `cloneStyle` and the `getComputedStyle` handler.
  - DOM nodes are a class with fields that are updated in place.
  - The ancestors form a chain linked by `parentNode`.
  - The outcome of the k-th native call is a parameter.
- `Methods`: the table, the conditions, the remaining handlers,
  `_removeOurWriteMethArgs`, `_fastApply` and the gate (`CallMethod`).
  - Everything the dispatcher consults but does not define is a field of
    `Env`: property reads, native calls, the DOM and browser tests, the name
    filter, the message sandbox and the internal constants.

The `getComputedStyle` handler is modelled as written, in two respects:

- **Which property is set.** Line 45 of `methods.js` assigns `element.display`.
  That is a plain property of the node object, not `element.style.display`.
  So the style the handler saves and writes back is never changed by it.
- **The failure path.** An exception inside the `try` block skips the
  write-back, and the `catch` answers null.

A design that forces each ancestor visible and restores it on every exit path
would behave differently. `ComputedStyle.ComputedStyleOverride` states what the
code does: each visited ancestor's `display` property becomes `'block'` and
stays so, and `style.display` is unchanged on every path.

## Model

| member | source | states |
|---|---|---|
| JsValues.FalsyValues | src/client/utils/types.js:16 | `!obj` holds for exactly null, undefined, false, 0, NaN and the empty string |
| Types.IsNullOrUndefined | src/client/utils/types.js:15-17 | true exactly for null and undefined; the falsy present values are not absent |
| Types.FalsyPresentValuesAreNotAbsent | src/client/utils/types.js:15-17 | a falsy value is absent if and only if it is none of false, 0, NaN and '' |
| Types.InaccessibleTypeToStr | src/client/utils/types.js:3-5 | 'null' for null and 'undefined' for every other value |
| FocusSelector.WhitespaceRun | src/client/sandbox/code-instrumentation/methods.js:170 | `\s*` consumes a maximal run of whitespace characters |
| FocusSelector.MatchIsWhitespaceThenToken | src/client/sandbox/code-instrumentation/methods.js:170 | a match is a whitespace run followed by `:focus` in any ASCII case and a word boundary |
| FocusSelector.MatchIsGreedy | src/client/sandbox/code-instrumentation/methods.js:170 | any split of a match between `\s*` and `:focus` gives the one greedy match |
| FocusSelector.SubstituteLiteral | src/client/sandbox/code-instrumentation/methods.js:170 | a replacement string without `$` is inserted as it is |
| FocusSelector.NoTokenUnchangedFrom | src/client/sandbox/code-instrumentation/methods.js:170 | a suffix without a focus token is copied unchanged |
| FocusSelector.KeepsSelectorWithoutFocus | src/client/sandbox/code-instrumentation/methods.js:169-171 | a selector without `:focus\b` is returned unchanged |
| FocusSelector.NoTokenRemainsFrom | src/client/sandbox/code-instrumentation/methods.js:170 | from any position on, the rewritten text holds no focus token |
| FocusSelector.ReplacesEveryFocus | src/client/sandbox/code-instrumentation/methods.js:169-171 | when the attribute name holds no focus token and no `$`, the result holds none: every occurrence is replaced |
| FocusSelector.DollarPatternKeepsFocus | src/client/sandbox/code-instrumentation/methods.js:170 | with the attribute name `$&`, `a:focus` becomes `a[:focus]`, which still holds the token, so the `$` condition above is needed |
| FocusSelector.KeepsFocused | src/client/sandbox/code-instrumentation/methods.js:170 | `:focused` is not replaced, because `\b` fails before the `e` |
| FocusSelector.KeepsHover | src/client/sandbox/code-instrumentation/methods.js:169-171 | other pseudo-classes are left alone |
| FocusSelector.RewritesEachFocus | src/client/sandbox/code-instrumentation/methods.js:169-171 | `a:focus, b :FOCUS` becomes `a[attr], b[attr]`: both spellings go, with the blank before them |
| ComputedStyle.ClonePrefixContents | src/client/sandbox/code-instrumentation/methods.js:13-21 | the partial copy exists if and only if no read has thrown; its keys are the listed names and each holds the value read |
| ComputedStyle.CloneFailureSticks | src/client/sandbox/code-instrumentation/methods.js:13-21 | once a read throws, the copy is null |
| ComputedStyle.ClonePrefixIsCloned | src/client/sandbox/code-instrumentation/methods.js:10-22 | copying property by property ends in the object that maps each listed name to its value, or in null |
| ComputedStyle.CloneStyle | src/client/sandbox/code-instrumentation/methods.js:10-22 | returns that object; it is null if and only if some read throws; its keys are exactly the listed names |
| ComputedStyle.AttemptStyle | src/client/sandbox/code-instrumentation/methods.js:37 | `style ? cloneStyle(style) : null` |
| ComputedStyle.ParentChainIsDistinct | src/client/sandbox/code-instrumentation/methods.js:46 | climbing `parentNode` to null never visits a node twice |
| ComputedStyle.WalkStopsAtFirst | src/client/sandbox/code-instrumentation/methods.js:43-50 | the walk stops at the first usable style, the first node without a tag name, or the first exception; every node before then had a tag name and gave no style |
| ComputedStyle.StyleAfterTopmostNodeIsLost | src/client/sandbox/code-instrumentation/methods.js:43-57 | a style that the retry after the topmost node yields is lost: reading `tagName` of null throws and the catch answers null |
| ComputedStyle.Step | src/client/sandbox/code-instrumentation/methods.js:44-49 | one pass records the node and its `style.display`, sets its `display` to 'block' and retries; the walk ahead ends where the whole walk does |
| ComputedStyle.VisitAncestors | src/client/sandbox/code-instrumentation/methods.js:40-50 | the loop ends as the walk does; the visited nodes are recorded with their saved values and have `display` 'block'; no other node changes |
| ComputedStyle.RestoreDisplays | src/client/sandbox/code-instrumentation/methods.js:52 | each recorded node gets its saved `style.display` back; other nodes keep theirs |
| ComputedStyle.ComputedStyleOverride | src/client/sandbox/code-instrumentation/methods.js:35-59 | a first native exception propagates; otherwise the result is the found style, or null; `style.display` is unchanged everywhere; exactly the visited ancestors have `display` 'block' |
| Methods.RemoveOurWriteMethArgs | src/client/sandbox/code-instrumentation/methods.js:111-125 | the result is a prefix of the arguments; it is shorter if and only if the last argument is `===` to one of the two markers, and then by one |
| Methods.MarkersBeforeTheEndStay | src/client/sandbox/code-instrumentation/methods.js:112-120 | every argument before the last one is kept, markers included |
| Methods.UnmarkedArgsPassThrough | src/client/sandbox/code-instrumentation/methods.js:111-125 | arguments without a trailing marker, the empty list included, come back unchanged |
| Methods.RemovesOneMarkerOnly | src/client/sandbox/code-instrumentation/methods.js:115-120 | with both markers at the end, only the closing one is dropped |
| Methods.FastApplyIsApply | src/client/sandbox/code-instrumentation/methods.js:128-145 | every arity case calls `owner[methName]` on `owner` with exactly the arguments, in order |
| Methods.TableListsEachHandlerOnce | src/client/sandbox/code-instrumentation/methods.js:28-103 | the table has one entry per handler, each under its own name, and nothing else |
| Methods.NonStringSelectorPassesThrough | src/client/sandbox/code-instrumentation/methods.js:67-72 | a selector that is not a string is forwarded as it came |
| Methods.PlainSelectorPassesThrough | src/client/sandbox/code-instrumentation/methods.js:66-73 | a string selector without `:focus` is forwarded as it came |
| Methods.ForwardedSelectorHasNoFocus | src/client/sandbox/code-instrumentation/methods.js:66-86 | a string selector is forwarded with no `:focus` token left, for an attribute name without a focus token or `$` |
| Methods.QueryUsesFirstArgumentOnly | src/client/sandbox/code-instrumentation/methods.js:66-86 | the query handlers depend on the first argument only |
| Methods.PlainQueryIsNative | src/client/sandbox/code-instrumentation/methods.js:63-86 | for one selector without `:focus`, the handler calls the native method just as `_fastApply` would |
| Methods.UnmarkedWriteIsNative | src/client/sandbox/code-instrumentation/methods.js:94-102 | without a trailing marker, the write handlers call the native method just as `_fastApply` would |
| Methods.MarkedWriteDropsMarker | src/client/sandbox/code-instrumentation/methods.js:94-102 | with a trailing marker, they call it with the arguments before the marker |
| Methods.RouteOf | src/client/sandbox/code-instrumentation/methods.js:150-166 | both error messages, the absent-owner check first; override if and only if callable, string name, filter, entry and condition all hold; a missing entry is the TypeError; otherwise a direct call |
| Methods.WindowPostMessageGoesToSandbox | src/client/sandbox/code-instrumentation/methods.js:89-92 | `postMessage` on a window goes to the message sandbox with the window and the arguments as they came |
| Methods.DocumentWriteIsDirect | src/client/sandbox/code-instrumentation/methods.js:94-102 | on a document, `write` and `writeln` are called directly |
| Methods.QueriesInIEAreDirect | src/client/sandbox/code-instrumentation/methods.js:63-87 | in Internet Explorer the query methods are called directly |
| Methods.AbsentOwnerReportedFirst | src/client/sandbox/code-instrumentation/methods.js:151-155 | an absent owner gets the absent-owner message, never the not-a-function one |
| Methods.FalsyOwnerIsNotAbsent | src/client/sandbox/code-instrumentation/methods.js:151-152 | 0, NaN, '' and false are not rejected as absent owners |
| Methods.DirectUnlessOverridden | src/client/sandbox/code-instrumentation/methods.js:161-165 | when the name filter only lets listed names through, every callable call that is not overridden is a direct call |
| Methods.CallMethod | src/client/sandbox/code-instrumentation/methods.js:150-166 | the outcome for each route: errors, the TypeError, the handler's result, `getComputedStyle`'s result and DOM effects, or exactly `owner[methName].apply(owner, args)`; on every other route the chain's `display` and `style.display` stay as they were |

## Left out

- The installation of the dispatcher is not modelled: `attach`, the sandbox base class and the constructor that stores `messageSandbox` (methods.js:24-28, 147-149). `CallMethod` is the installed closure.
- The message sandbox's own handling of `postMessage` is not modelled. The model only states that the window and the arguments reach it untouched.
- `Env.invoke` is a pure function. What a native method does to the DOM, and how many times it is called, cannot be seen in the model.
- Native DOM behaviour is not modelled: `querySelector`, `write` and `getComputedStyle` themselves. Their outcomes are parameters (`Env.invoke` and the `styleCalls` oracle).
- `isWindow`, `isDocument`, `isDomElement`, `isIE`, `isFirefox` and `shouldInstrumentMethod` are parameters of `Env`. Their definitions are not part of this model.
- `isLocation` and `isSVGElement` from `types.js` are not used by the dispatcher and are not modelled.
- The values of `INTERNAL_ATTRS.focusPseudoClass` and the two `INTERNAL_LITERAL` markers are parameters. Their definitions are not part of this model.
- `Env.get` is a pure function. Getters with side effects and proxies are not modelled, so reading `owner[methName]` twice gives the same member.
- `Env.toText` stands for the conversion of a method name that is a number or an object inside the error messages. A `toString` that throws is not modelled.
- `FocusSelector.ReplacesEveryFocus` and `Methods.ForwardedSelectorHasNoFocus` hold for attribute names without `$`. With a `$` pattern in the name the rewrite can bring `:focus` back, as `FocusSelector.DollarPatternKeepsFocus` shows. The value of the attribute name is not part of this model.
- `Types.IsNullOrUndefined`: the value domain has no object with the [[IsHTMLDDA]] slot (`document.all`). Such an object is falsy and has `typeof` 'undefined', so `types.js:16` answers true for it and the dispatcher rejects a call on it with "of undefined".
- `JsValues.StrictEquals` compares `Record` values by their contents, while `===` compares objects by identity. `Record` only stands for the fresh object that `cloneStyle` returns, and the dispatcher never compares it.
- `JsValues.JsValue` has no Symbol and no BigInt. A Symbol method name (`obj[Symbol.iterator]()`) is not modelled; on the error paths at methods.js:152 and 155 the template literal would throw a TypeError for it instead of the dispatcher's `Error`.
- `Methods.FastApply`: `meth.call(...)` and `meth.apply(...)` are both `Env.invoke`. A page that patches `Function.prototype.call` or `Function.prototype.apply` could tell the two apart, and that is not modelled.
- Strings are sequences of characters, not UTF-16 code units, and `\s` is written out as ECMAScript's fixed set of whitespace characters.
- `ComputedStyle.CloneStyle`: the copy is a map from names to strings. Setting a key such as `__proto__` on a plain object does not create an own property, and that is not modelled.
- `Methods.RemoveOurWriteMethArgs`: the argument list is a value. The model does not capture that the function returns the very `args` array when nothing is removed and a fresh copy otherwise.
- `Methods.CallMethod`: the frame element and its ancestor chain are given by the caller. The model does not tie them to `Env.get(owner, "frameElement")`, which the condition tests for truthiness.
- `ComputedStyle.ComputedStyleOverride`: the outcome of the k-th native call is independent of `args` and of the DOM changes. The model does not relate it to what the retries change.
- The `_error` helper (methods.js:106-109) is folded into the `Reject` route: it throws an `Error` carrying the message.
