/** The method-call dispatcher that rewritten scripts call for every
    `owner[methName](...args)`: it rejects an absent owner and a member that
    is not a function, runs an override handler when the method name is in
    the override table and the entry's condition accepts the owner, and
    otherwise calls the member itself through `_fastApply`. */
module Methods {
  import opened JsValues
  import opened Types
  import FocusSelector
  import opened ComputedStyle

  /** What the dispatcher consults but does not define: property reads,
      native calls, the DOM and browser tests, the name filter, the message
      sandbox and the internal constants. */
  datatype Env = Env(
    get: (JsValue, JsValue) -> JsValue,                       // owner[key]
    invoke: (JsValue, JsValue, seq<JsValue>) -> Completion,   // fn.apply(thisArg, args)
    isWindow: JsValue -> bool,
    isDocument: JsValue -> bool,
    isDomElement: JsValue -> bool,
    isIE: bool,
    isFirefox: bool,
    shouldInstrumentMethod: string -> bool,
    postMessage: (JsValue, seq<JsValue>) -> Completion,       // messageSandbox.postMessage
    focusPseudoClassAttr: string,                             // INTERNAL_ATTRS.focusPseudoClass
    documentWriteBegin: JsValue,                              // INTERNAL_LITERAL.documentWriteBegin
    documentWriteEnd: JsValue,                                // INTERNAL_LITERAL.documentWriteEnd
    toText: JsValue -> string)                                // ToString of a number or an object

  /** `${value}` in a template literal. */
  function MemberText(methName: JsValue, env: Env): (r: string) {
    match methName
    case Str(s) => s
    case Undefined => "undefined"
    case Null => "null"
    case Bool(b) => if b then "true" else "false"
    case _ => env.toText(methName)
  }

  // ---------------------------------------------------------------------
  // _removeOurWriteMethArgs

  predicate IsWriteMarker(v: JsValue, env: Env) {
    StrictEquals(v, env.documentWriteBegin) || StrictEquals(v, env.documentWriteEnd)
  }

  /** The arguments of `write`/`writeln` without the marker the script
      processor may have appended: the result keeps every argument, in
      order, except a marker in last place. */
  function RemoveOurWriteMethArgs(args: seq<JsValue>, env: Env): (r: seq<JsValue>)
    ensures r <= args
    ensures |r| < |args| <==> |args| > 0 && IsWriteMarker(args[|args| - 1], env)
    ensures |args| - 1 <= |r|
  {
    if |args| > 0 && IsWriteMarker(args[|args| - 1], env) then args[..|args| - 1] else args
  }

  /** Only the last argument can go: a marker anywhere else stays, and
      arguments that do not end in a marker, the empty list included, pass
      through unchanged. */
  lemma MarkersBeforeTheEndStay(args: seq<JsValue>, env: Env, i: nat)
    requires i < |args| - 1
    ensures RemoveOurWriteMethArgs(args, env)[i] == args[i]
  {
  }

  lemma UnmarkedArgsPassThrough(args: seq<JsValue>, env: Env)
    requires |args| == 0 || !IsWriteMarker(args[|args| - 1], env)
    ensures RemoveOurWriteMethArgs(args, env) == args
  {
  }

  /** With both markers at the end, only the closing one is removed. */
  lemma RemovesOneMarkerOnly(args: seq<JsValue>, env: Env)
    requires env.documentWriteBegin != Num(NaN) && env.documentWriteEnd != Num(NaN)
    ensures RemoveOurWriteMethArgs(args + [env.documentWriteBegin, env.documentWriteEnd], env) ==
      args + [env.documentWriteBegin]
  {
    var a := args + [env.documentWriteBegin, env.documentWriteEnd];
    assert a[|a| - 1] == env.documentWriteEnd;
    assert a[..|a| - 1] == args + [env.documentWriteBegin];
  }

  // ---------------------------------------------------------------------
  // _fastApply

  /** `_fastApply`: call `owner[methName]` with `owner` as `this`, passing
      one to five arguments one by one and any other number through
      `apply`. */
  function FastApply(owner: JsValue, methName: JsValue, args: seq<JsValue>, env: Env): (c: Completion) {
    var meth := env.get(owner, methName);
    if |args| == 1 then env.invoke(meth, owner, [args[0]])
    else if |args| == 2 then env.invoke(meth, owner, [args[0], args[1]])
    else if |args| == 3 then env.invoke(meth, owner, [args[0], args[1], args[2]])
    else if |args| == 4 then env.invoke(meth, owner, [args[0], args[1], args[2], args[3]])
    else if |args| == 5 then env.invoke(meth, owner, [args[0], args[1], args[2], args[3], args[4]])
    else env.invoke(meth, owner, args)
  }

  /** Every arity case passes exactly the arguments, in order: `_fastApply`
      is `owner[methName].apply(owner, args)`. */
  lemma FastApplyIsApply(owner: JsValue, methName: JsValue, args: seq<JsValue>, env: Env)
    ensures FastApply(owner, methName, args, env) == env.invoke(env.get(owner, methName), owner, args)
  {
    if |args| == 1 {
      assert [args[0]] == args;
    } else if |args| == 2 {
      assert [args[0], args[1]] == args;
    } else if |args| == 3 {
      assert [args[0], args[1], args[2]] == args;
    } else if |args| == 4 {
      assert [args[0], args[1], args[2], args[3]] == args;
    } else if |args| == 5 {
      assert [args[0], args[1], args[2], args[3], args[4]] == args;
    }
  }

  // ---------------------------------------------------------------------
  // The override table

  /** A handler that only forwards the call, adjusting its arguments. */
  datatype Forwarder = QuerySelector | QuerySelectorAll | PostMessage | Write | Writeln

  /** An entry of `methodWrappers`. */
  datatype Wrapper = ComputedStyleWrapper | Forwarding(forwarder: Forwarder)

  /** `methodWrappers[name]`, for the names the table lists. */
  function MethodWrapper(name: string): (r: Option<Wrapper>) {
    if name == "getComputedStyle" then Some(ComputedStyleWrapper)
    else if name == "querySelector" then Some(Forwarding(QuerySelector))
    else if name == "querySelectorAll" then Some(Forwarding(QuerySelectorAll))
    else if name == "postMessage" then Some(Forwarding(PostMessage))
    else if name == "write" then Some(Forwarding(Write))
    else if name == "writeln" then Some(Forwarding(Writeln))
    else None
  }

  /** The key under which an entry is listed. */
  function WrapperName(w: Wrapper): (r: string) {
    match w
    case ComputedStyleWrapper => "getComputedStyle"
    case Forwarding(QuerySelector) => "querySelector"
    case Forwarding(QuerySelectorAll) => "querySelectorAll"
    case Forwarding(PostMessage) => "postMessage"
    case Forwarding(Write) => "write"
    case Forwarding(Writeln) => "writeln"
  }

  /** The table has one entry per handler, each under its own name, and
      nothing else. */
  lemma TableListsEachHandlerOnce(name: string, w: Wrapper)
    ensures MethodWrapper(WrapperName(w)) == Some(w)
    ensures MethodWrapper(name) == Some(w) <==> name == WrapperName(w)
  {
  }

  /** The `condition` of each entry. `win.frameElement` is tested for
      truthiness, as the `&&` chain does. */
  predicate Condition(w: Wrapper, owner: JsValue, env: Env) {
    match w
    case ComputedStyleWrapper =>
      env.isFirefox && env.isWindow(owner) && Truthy(env.get(owner, Str("frameElement")))
    case Forwarding(QuerySelector) => !env.isIE && (env.isDocument(owner) || env.isDomElement(owner))
    case Forwarding(QuerySelectorAll) => !env.isIE && (env.isDocument(owner) || env.isDomElement(owner))
    case Forwarding(PostMessage) => env.isWindow(owner)
    case Forwarding(Write) => !env.isDocument(owner)
    case Forwarding(Writeln) => !env.isDocument(owner)
  }

  /** The selector the query handlers pass on: `args[0]`, rewritten when it
      is a string. */
  function ForwardedSelector(args: seq<JsValue>, attr: string): (r: JsValue) {
    var selector := if |args| > 0 then args[0] else Undefined;
    if selector.Str? then Str(FocusSelector.ReplaceFocusPseudoClass(selector.s, attr)) else selector
  }

  /** The `method` of each forwarding entry. */
  function Handle(f: Forwarder, owner: JsValue, args: seq<JsValue>, env: Env): (c: Completion) {
    match f
    case QuerySelector =>
      env.invoke(env.get(owner, Str("querySelector")), owner, [ForwardedSelector(args, env.focusPseudoClassAttr)])
    case QuerySelectorAll =>
      env.invoke(env.get(owner, Str("querySelectorAll")), owner, [ForwardedSelector(args, env.focusPseudoClassAttr)])
    case PostMessage => env.postMessage(owner, args)
    case Write => env.invoke(env.get(owner, Str("write")), owner, RemoveOurWriteMethArgs(args, env))
    case Writeln => env.invoke(env.get(owner, Str("writeln")), owner, RemoveOurWriteMethArgs(args, env))
  }

  /** A selector that is not a string reaches the native method as it came. */
  lemma NonStringSelectorPassesThrough(args: seq<JsValue>, attr: string)
    requires |args| > 0 && !args[0].Str?
    ensures ForwardedSelector(args, attr) == args[0]
  {
  }

  /** A string selector without `:focus` reaches the native method as it came. */
  lemma PlainSelectorPassesThrough(args: seq<JsValue>, attr: string)
    requires |args| > 0 && args[0].Str? && FocusSelector.FocusFree(args[0].s)
    ensures ForwardedSelector(args, attr) == args[0]
  {
    FocusSelector.KeepsSelectorWithoutFocus(args[0].s, attr);
  }

  /** A string selector reaches the native method with no `:focus` left in
      it, for an attribute name without a focus token or a `$` pattern. */
  lemma ForwardedSelectorHasNoFocus(args: seq<JsValue>, attr: string)
    requires |args| > 0 && args[0].Str? && FocusSelector.FocusFree(attr) && '$' !in attr
    ensures ForwardedSelector(args, attr).Str? && FocusSelector.FocusFree(ForwardedSelector(args, attr).s)
  {
    FocusSelector.ReplacesEveryFocus(args[0].s, attr);
  }

  /** The query handlers forward the first argument only: calls that agree
      on it reach the native method identically. */
  lemma QueryUsesFirstArgumentOnly(f: Forwarder, owner: JsValue, args1: seq<JsValue>, args2: seq<JsValue>, env: Env)
    requires f == QuerySelector || f == QuerySelectorAll
    requires |args1| > 0 && |args2| > 0 && args1[0] == args2[0]
    ensures Handle(f, owner, args1, env) == Handle(f, owner, args2, env)
  {
  }

  /** For one selector without `:focus`, the query handlers call the native
      method just as the dispatcher would without them. */
  lemma PlainQueryIsNative(f: Forwarder, owner: JsValue, selector: JsValue, env: Env)
    requires f == QuerySelector || f == QuerySelectorAll
    requires selector.Str? ==> FocusSelector.FocusFree(selector.s)
    ensures Handle(f, owner, [selector], env) ==
      FastApply(owner, Str(if f == QuerySelector then "querySelector" else "querySelectorAll"), [selector], env)
  {
    if selector.Str? {
      PlainSelectorPassesThrough([selector], env.focusPseudoClassAttr);
    }
  }

  /** Without a trailing marker the write handlers call the native method
      just as the dispatcher would without them. */
  lemma UnmarkedWriteIsNative(f: Forwarder, owner: JsValue, args: seq<JsValue>, env: Env)
    requires f == Write || f == Writeln
    requires |args| == 0 || !IsWriteMarker(args[|args| - 1], env)
    ensures Handle(f, owner, args, env) == FastApply(owner, Str(if f == Write then "write" else "writeln"), args, env)
  {
    UnmarkedArgsPassThrough(args, env);
    FastApplyIsApply(owner, Str(if f == Write then "write" else "writeln"), args, env);
  }

  /** With a trailing marker the write handlers call the native method
      with the arguments before it. */
  lemma MarkedWriteDropsMarker(f: Forwarder, owner: JsValue, args: seq<JsValue>, env: Env)
    requires f == Write || f == Writeln
    requires |args| > 0 && IsWriteMarker(args[|args| - 1], env)
    ensures Handle(f, owner, args, env) ==
      FastApply(owner, Str(if f == Write then "write" else "writeln"), args[..|args| - 1], env)
  {
    FastApplyIsApply(owner, Str(if f == Write then "write" else "writeln"), args[..|args| - 1], env);
  }

  // ---------------------------------------------------------------------
  // The dispatch gate

  /** Where a call goes. */
  datatype Route =
    | Reject(message: string)      // `_error(message)`
    | NoWrapperEntry               // the name passes the filter but the table has no entry
    | Override(wrapper: Wrapper)   // `methodWrappers[methName].method(owner, args)`
    | Direct                       // `_fastApply(owner, methName, args)`

  function NullOwnerMessage(methName: JsValue, owner: JsValue, env: Env): (r: string) {
    "Cannot call method '" + MemberText(methName, env) + "' of " + InaccessibleTypeToStr(owner)
  }

  function NotAFunctionMessage(methName: JsValue, env: Env): (r: string) {
    "'" + MemberText(methName, env) + "' is not a function"
  }

  /** Both checks pass: the owner is present and the member is a function. */
  predicate Callable(owner: JsValue, methName: JsValue, env: Env) {
    !IsNullOrUndefined(owner) && TypeOf(env.get(owner, methName)) == "function"
  }

  /** The three-part test for an override. */
  predicate Overridden(owner: JsValue, methName: JsValue, env: Env) {
    methName.Str? && env.shouldInstrumentMethod(methName.s) &&
    MethodWrapper(methName.s).Some? && Condition(MethodWrapper(methName.s).value, owner, env)
  }

  /** The branching of the `callMethod` closure. */
  function RouteOf(owner: JsValue, methName: JsValue, env: Env): (r: Route)
    ensures owner == Null ==> r == Reject("Cannot call method '" + MemberText(methName, env) + "' of " + "null")
    ensures owner == Undefined ==> r == Reject("Cannot call method '" + MemberText(methName, env) + "' of " + "undefined")
    ensures !IsNullOrUndefined(owner) && TypeOf(env.get(owner, methName)) != "function" ==>
      r == Reject("'" + MemberText(methName, env) + "' is not a function")
    ensures r.Reject? <==> !Callable(owner, methName, env)
    ensures r.Override? <==> Callable(owner, methName, env) && Overridden(owner, methName, env)
    ensures r.Override? ==> MethodWrapper(methName.s) == Some(r.wrapper)
    ensures r.NoWrapperEntry? <==>
      Callable(owner, methName, env) && methName.Str? && env.shouldInstrumentMethod(methName.s) &&
      MethodWrapper(methName.s).None?
  {
    if IsNullOrUndefined(owner) then Reject(NullOwnerMessage(methName, owner, env))
    else if TypeOf(env.get(owner, methName)) != "function" then Reject(NotAFunctionMessage(methName, env))
    else if methName.Str? && env.shouldInstrumentMethod(methName.s) then
      match MethodWrapper(methName.s)
      case None => NoWrapperEntry
      case Some(w) => if Condition(w, owner, env) then Override(w) else Direct
    else Direct
  }

  /** Every call that passes both checks and is not overridden goes to
      `_fastApply`, as long as the name filter only lets through names the
      table lists. */
  lemma DirectUnlessOverridden(owner: JsValue, methName: JsValue, env: Env)
    requires forall name :: env.shouldInstrumentMethod(name) ==> MethodWrapper(name).Some?
    requires Callable(owner, methName, env) && !Overridden(owner, methName, env)
    ensures RouteOf(owner, methName, env) == Direct
  {
  }

  /** `postMessage` on a window goes to the message sandbox with the
      window and the arguments as they came. */
  lemma WindowPostMessageGoesToSandbox(owner: JsValue, args: seq<JsValue>, env: Env)
    requires env.isWindow(owner) && Callable(owner, Str("postMessage"), env)
    requires env.shouldInstrumentMethod("postMessage")
    ensures RouteOf(owner, Str("postMessage"), env) == Override(Forwarding(PostMessage))
    ensures Handle(RouteOf(owner, Str("postMessage"), env).wrapper.forwarder, owner, args, env) ==
      env.postMessage(owner, args)
  {
  }

  /** The write handlers apply only where the owner is not a document, so
      `document.write` itself keeps its marker argument. */
  lemma DocumentWriteIsDirect(owner: JsValue, name: string, env: Env)
    requires name == "write" || name == "writeln"
    requires env.isDocument(owner) && Callable(owner, Str(name), env)
    ensures RouteOf(owner, Str(name), env) == Direct
  {
  }

  /** In Internet Explorer the query methods are never overridden. */
  lemma QueriesInIEAreDirect(owner: JsValue, name: string, env: Env)
    requires name == "querySelector" || name == "querySelectorAll"
    requires env.isIE && Callable(owner, Str(name), env)
    ensures RouteOf(owner, Str(name), env) == Direct
  {
  }

  /** The owner check comes first: an absent owner is reported as such even
      when the member would not be a function either. */
  lemma AbsentOwnerReportedFirst(owner: JsValue, methName: JsValue, env: Env)
    requires IsNullOrUndefined(owner)
    ensures RouteOf(owner, methName, env) == Reject(NullOwnerMessage(methName, owner, env))
    ensures RouteOf(owner, methName, env) != Reject(NotAFunctionMessage(methName, env))
  {
    var m := NotAFunctionMessage(methName, env);
    assert m[0] == '\'';
    assert NullOwnerMessage(methName, owner, env)[0] == 'C';
  }

  /** A falsy present owner such as 0, '' or false is not rejected as absent. */
  lemma FalsyOwnerIsNotAbsent(owner: JsValue, methName: JsValue, env: Env)
    requires owner == Num(Finite(0.0)) || owner == Str("") || owner == Bool(false) || owner == Num(NaN)
    requires TypeOf(env.get(owner, methName)) == "function"
    ensures !RouteOf(owner, methName, env).Reject?
  {
  }

  /** `window[INSTRUCTION.callMethod](owner, methName, args)`. The DOM state
      the model tracks is the `display` and `style.display` of the nodes the
      `getComputedStyle` handler walks: its frame element, ancestor chain and
      native-call outcomes are `frameElement`, `chain` and `styleCalls`.
      What native methods reached through `Env.invoke` do to the DOM is not
      tracked. */
  method CallMethod(owner: JsValue, methName: JsValue, args: seq<JsValue>, env: Env,
                    frameElement: Element?, ghost chain: seq<Element>, styleCalls: nat -> StyleCall)
    returns (c: Completion)
    requires ParentChain(frameElement, chain)
    modifies chain`display, chain`styleDisplay
    ensures RouteOf(owner, methName, env).Reject? ==> c == Abrupt(Error(RouteOf(owner, methName, env).message))
    ensures RouteOf(owner, methName, env).NoWrapperEntry? ==> c == Abrupt(MissingEntryTypeError)
    ensures RouteOf(owner, methName, env).Direct? ==> c == env.invoke(env.get(owner, methName), owner, args)
    ensures RouteOf(owner, methName, env).Override? && RouteOf(owner, methName, env).wrapper.Forwarding? ==>
      c == Handle(RouteOf(owner, methName, env).wrapper.forwarder, owner, args, env)
    ensures RouteOf(owner, methName, env) == Override(ComputedStyleWrapper) ==>
      (styleCalls(0).Threw? ==> c == Abrupt(Native(styleCalls(0).exception))) &&
      (!styleCalls(0).Threw? ==> c == Normal(WalkResult(old(Walk(Tags(chain), styleCalls, 0)))))
    ensures forall i :: 0 <= i < |chain| ==> chain[i].styleDisplay == old(chain[i].styleDisplay)
    ensures forall i :: 0 <= i < |chain| ==>
      chain[i].display ==
        if RouteOf(owner, methName, env) == Override(ComputedStyleWrapper) && !styleCalls(0).Threw? &&
           i < old(Walk(Tags(chain), styleCalls, 0)).steps
        then "block"
        else old(chain[i].display)
  {
    var route := RouteOf(owner, methName, env);
    match route
    case Reject(message) =>
      c := Abrupt(Error(message));
    case NoWrapperEntry =>
      c := Abrupt(MissingEntryTypeError);
    case Override(ComputedStyleWrapper) =>
      c := ComputedStyleOverride(frameElement, chain, styleCalls);
    case Override(Forwarding(f)) =>
      c := Handle(f, owner, args, env);
    case Direct =>
      FastApplyIsApply(owner, methName, args, env);
      c := FastApply(owner, methName, args, env);
  }
}
