/** The `getComputedStyle` override and its `cloneStyle` helper. When the
    native call gives no usable style for a window shown in a frame, the
    override walks up from the frame element, one ancestor per pass,
    retrying the native call after each step. It stops at the first retry
    that gives a usable style or at the first node without a tag name, and
    then writes each visited ancestor's saved `style.display` back. When a
    retry throws, or the chain runs out (reading `tagName` of null throws),
    nothing is written back and the answer is null. */
module ComputedStyle {
  import opened JsValues

  /** Reading one property of a style declaration: a value, or an exception. */
  datatype Read = Got(value: string) | Raises

  /** A CSSStyleDeclaration: `style.length` and `style[i]` list the property
      names, `style[name]` reads one property. */
  datatype CssStyle = CssStyle(names: seq<string>, read: string -> Read)

  /** What one call of the native `getComputedStyle` gives: an exception, a
      falsy value such as null, or a style declaration. */
  datatype StyleCall = Threw(exception: JsValue) | Falsy | Declaration(style: CssStyle)

  // ---------------------------------------------------------------------
  // cloneStyle

  /** The object `cloneStyle` has built after copying the first `n`
      properties, or None once one read has thrown. */
  function ClonePrefix(style: CssStyle, n: nat): (clone: Option<map<string, string>>)
    requires n <= |style.names|
  {
    if n == 0 then Some(map[])
    else
      var prefix := ClonePrefix(style, n - 1);
      var read := style.read(style.names[n - 1]);
      if prefix.Some? && read.Got? then Some(prefix.value[style.names[n - 1] := read.value]) else None
  }

  /** The copy exists exactly when no read throws; it has one key per listed
      name, each holding what reading that name gives. */
  lemma {:induction false} ClonePrefixContents(style: CssStyle, n: nat)
    requires n <= |style.names|
    ensures ClonePrefix(style, n).Some? <==> forall i :: 0 <= i < n ==> style.read(style.names[i]).Got?
    ensures ClonePrefix(style, n).Some? ==>
      ClonePrefix(style, n).value.Keys == (set i | 0 <= i < n :: style.names[i]) &&
      forall k :: k in ClonePrefix(style, n).value ==> style.read(k) == Got(ClonePrefix(style, n).value[k])
  {
    if n > 0 {
      ClonePrefixContents(style, n - 1);
      var name := style.names[n - 1];
      if ClonePrefix(style, n).Some? {
        var m := ClonePrefix(style, n - 1).value;
        assert ClonePrefix(style, n).value == m[name := style.read(name).value];
        assert (set i | 0 <= i < n :: style.names[i]) == (set i | 0 <= i < n - 1 :: style.names[i]) + {name};
      }
    }
  }

  /** Once a read has thrown, the copy stays null. */
  lemma {:induction false} CloneFailureSticks(style: CssStyle, n: nat, m: nat)
    requires n <= m <= |style.names|
    requires ClonePrefix(style, n).None?
    ensures ClonePrefix(style, m).None?
    decreases m - n
  {
    if n < m {
      CloneFailureSticks(style, n + 1, m);
    }
  }

  /** What `cloneStyle` returns, stated at once: null when some read throws,
      otherwise the object mapping each listed name to its value. */
  function Cloned(style: CssStyle): (clone: Option<map<string, string>>) {
    if forall i :: 0 <= i < |style.names| ==> style.read(style.names[i]).Got?
    then Some(map name | name in style.names && style.read(name).Got? :: style.read(name).value)
    else None
  }

  /** Copying the properties one by one, in order, and stopping at the
      first read that throws, ends in that object. */
  lemma ClonePrefixIsCloned(style: CssStyle)
    ensures ClonePrefix(style, |style.names|) == Cloned(style)
  {
    var n := |style.names|;
    ClonePrefixContents(style, n);
    if ClonePrefix(style, n).Some? {
      var m := ClonePrefix(style, n).value;
      var c := Cloned(style).value;
      forall name ensures name in m <==> name in c {
        if name in c {
          var i :| 0 <= i < n && style.names[i] == name;
          assert name in (set i | 0 <= i < n :: style.names[i]);
        }
      }
      assert m == c;
    }
  }

  /** `cloneStyle`: copy every listed property into a fresh plain object. */
  method CloneStyle(style: CssStyle) returns (clone: Option<map<string, string>>)
    ensures clone == Cloned(style)
    ensures clone.Some? <==> forall i :: 0 <= i < |style.names| ==> style.read(style.names[i]).Got?
    ensures clone.Some? ==> clone.value.Keys == (set i | 0 <= i < |style.names| :: style.names[i])
  {
    var cloned: map<string, string> := map[];
    for i := 0 to |style.names|
      invariant ClonePrefix(style, i) == Some(cloned)
    {
      var name := style.names[i];
      match style.read(name)
      case Raises =>
        CloneFailureSticks(style, i + 1, |style.names|);
        ClonePrefixContents(style, |style.names|);
        ClonePrefixIsCloned(style);
        return None;
      case Got(v) =>
        cloned := cloned[name := v];
    }
    ClonePrefixContents(style, |style.names|);
    ClonePrefixIsCloned(style);
    clone := Some(cloned);
  }

  /** `style ? cloneStyle(style) : null` for the outcome of a call that did not throw. */
  function Attempt(call: StyleCall): (result: Option<map<string, string>>) {
    match call
    case Declaration(style) => Cloned(style)
    case _ => None
  }

  // ---------------------------------------------------------------------
  // The ancestor walk

  /** A DOM node as the walk sees it. `tagName` is "" for a node without
      one (the document); `styleDisplay` is `node.style.display`;
      `display` is the plain `display` property of the node object. */
  class Element {
    var tagName: string
    var styleDisplay: string
    var display: string
    var parentNode: Element?
  }

  /** `chain` lists `first`, its parent, its parent's parent and so on up
      to the node whose `parentNode` is null. */
  ghost predicate ParentChain(first: Element?, chain: seq<Element>)
    reads chain
  {
    (first == null <==> chain == []) &&
    (chain != [] ==> first == chain[0] && chain[|chain| - 1].parentNode == null) &&
    forall i :: 0 <= i < |chain| - 1 ==> chain[i].parentNode == chain[i + 1]
  }

  /** A parent chain visits every node once. */
  lemma {:induction false} ParentChainIsDistinct(first: Element?, chain: seq<Element>, i: nat, j: nat)
    requires ParentChain(first, chain)
    requires i < j < |chain|
    ensures chain[i] != chain[j]
    decreases |chain| - j
  {
    if j < |chain| - 1 {
      ParentChainIsDistinct(first, chain, i + 1, j + 1);
      assert chain[i].parentNode != chain[j].parentNode;
    } else {
      assert chain[i].parentNode == chain[i + 1];
    }
  }

  /** The tag names along the chain. */
  ghost function Tags(chain: seq<Element>): (tags: seq<string>)
    reads chain
    ensures |tags| == |chain|
    ensures forall i :: 0 <= i < |chain| ==> tags[i] == chain[i].tagName
  {
    seq(|chain|, i requires 0 <= i < |chain| reads chain => chain[i].tagName)
  }

  /** The `style.display` values along the chain. */
  ghost function StyleDisplays(chain: seq<Element>): (displays: seq<string>)
    reads chain
    ensures |displays| == |chain|
    ensures forall i :: 0 <= i < |chain| ==> displays[i] == chain[i].styleDisplay
  {
    seq(|chain|, i requires 0 <= i < |chain| reads chain => chain[i].styleDisplay)
  }

  /** How the walk ends. `steps` is the number of ancestors visited, which
      is also the number of retries made. */
  datatype WalkEnd =
    | Found(steps: nat, props: map<string, string>)   // a retry gave a usable style
    | NoStyle(steps: nat)                            // reached a node without a tag name
    | Faulted(steps: nat)                            // an exception inside the try block

  /** The loop of the override, at its head with `k` ancestors visited: the
      node at hand is `tags[k]`, or null once the chain is used up (reading
      its `tagName` then throws a TypeError), and `calls(k)` is the outcome
      of the latest native call. */
  function Walk(tags: seq<string>, calls: nat -> StyleCall, k: nat): (w: WalkEnd)
    requires k <= |tags| && !calls(k).Threw?
    decreases |tags| - k
  {
    if k == |tags| then Faulted(k)
    else if Attempt(calls(k)).Some? then Found(k, Attempt(calls(k)).value)
    else if tags[k] == "" then NoStyle(k)
    else if calls(k + 1).Threw? then Faulted(k + 1)
    else Walk(tags, calls, k + 1)
  }

  /** The walk stops at the first retry that yields a copy of a style, or at
      the first node without a tag name, or at the first exception; every
      ancestor visited before then had a tag name and gave no style. */
  lemma {:induction false} WalkStopsAtFirst(tags: seq<string>, calls: nat -> StyleCall, k: nat)
    requires k <= |tags| && !calls(k).Threw?
    ensures var w := Walk(tags, calls, k);
      k <= w.steps <= |tags| &&
      (forall j :: k <= j < w.steps ==> tags[j] != "" && Attempt(calls(j)).None?) &&
      (forall j :: k <= j < w.steps ==> !calls(j).Threw?) &&
      (w.Found? ==> w.steps < |tags| && Attempt(calls(w.steps)) == Some(w.props)) &&
      (w.NoStyle? ==> w.steps < |tags| && tags[w.steps] == "" && Attempt(calls(w.steps)).None? &&
                      !calls(w.steps).Threw?) &&
      (w.Faulted? ==> w.steps == |tags| || calls(w.steps).Threw?)
    decreases |tags| - k
  {
    if k < |tags| && Attempt(calls(k)).None? && tags[k] != "" && !calls(k + 1).Threw? {
      WalkStopsAtFirst(tags, calls, k + 1);
    }
  }

  /** One pass of the loop, seen from the walk. */
  lemma WalkAdvances(tags: seq<string>, calls: nat -> StyleCall, k: nat)
    requires k < |tags| && !calls(k).Threw? && Attempt(calls(k)).None? && tags[k] != ""
    ensures calls(k + 1).Threw? ==> Walk(tags, calls, k) == Faulted(k + 1)
    ensures !calls(k + 1).Threw? ==> Walk(tags, calls, k) == Walk(tags, calls, k + 1)
  {
  }

  /** Leaving the loop, seen from the walk. */
  lemma WalkExits(tags: seq<string>, calls: nat -> StyleCall, k: nat)
    requires k <= |tags| && !calls(k).Threw?
    requires k == |tags| || Attempt(calls(k)).Some? || tags[k] == ""
    ensures Walk(tags, calls, k) ==
      if k == |tags| then Faulted(k)
      else if Attempt(calls(k)).Some? then Found(k, Attempt(calls(k)).value)
      else NoStyle(k)
  {
  }

  /** A style that the retry after the topmost node gives is lost: the loop
      condition reads `tagName` of that node's null parent first, and the
      catch answers null. */
  lemma {:induction false} StyleAfterTopmostNodeIsLost(tags: seq<string>, calls: nat -> StyleCall, k: nat)
    requires k <= |tags| && !calls(k).Threw?
    requires forall j :: k <= j < |tags| ==> tags[j] != "" && Attempt(calls(j)).None?
    requires forall j :: k < j <= |tags| ==> !calls(j).Threw?
    ensures Walk(tags, calls, k) == Faulted(|tags|)
    decreases |tags| - k
  {
    if k < |tags| {
      StyleAfterTopmostNodeIsLost(tags, calls, k + 1);
    }
  }

  /** What the override returns for a walk: `result ? result : null`,
      where the catch also answers null. */
  function WalkResult(w: WalkEnd): (r: JsValue) {
    if w.Found? then Record(w.props) else Null
  }

  /** One entry of the `changes` array: a node and its saved `style.display`. */
  datatype Change = Change(element: Element, display: string)

  /** `style ? cloneStyle(style) : null`. */
  method AttemptStyle(call: StyleCall) returns (result: Option<map<string, string>>)
    ensures result == Attempt(call)
  {
    result := None;
    if call.Declaration? {
      result := CloneStyle(call.style);
    }
  }

  /** The plain `display` properties along the chain. */
  ghost function Displays(chain: seq<Element>): (displays: seq<string>)
    reads chain
    ensures |displays| == |chain|
    ensures forall i :: 0 <= i < |chain| ==> displays[i] == chain[i].display
  {
    seq(|chain|, i requires 0 <= i < |chain| reads chain => chain[i].display)
  }

  /** What the loop relies on and never changes: `chain` is linked by
      `parentNode` up to null, lists each node once, and its tag names and
      `style.display` values are `tags` and `saved`. */
  ghost predicate Fixed(chain: seq<Element>, tags: seq<string>, saved: seq<string>)
    reads chain
  {
    |tags| == |chain| && |saved| == |chain| &&
    (chain != [] ==> chain[|chain| - 1].parentNode == null) &&
    (forall i :: 0 <= i < |chain| - 1 ==> chain[i].parentNode == chain[i + 1]) &&
    (forall i :: 0 <= i < |chain| ==> tags[i] == chain[i].tagName && saved[i] == chain[i].styleDisplay) &&
    (forall i, j :: 0 <= i < j < |chain| ==> chain[i] != chain[j])
  }

  /** After `k` passes: the first `k` nodes are listed in `changes` with
      their saved `style.display` and have `display` 'block'; the other
      nodes keep the `display` they had on entry, `before`. */
  ghost predicate Visited(chain: seq<Element>, saved: seq<string>, before: seq<string>, changes: seq<Change>, k: nat)
    reads chain
  {
    k <= |chain| && |saved| == |chain| && |before| == |chain| && |changes| == k &&
    (forall i :: 0 <= i < k ==> changes[i] == Change(chain[i], saved[i])) &&
    (forall i :: 0 <= i < |chain| ==> chain[i].display == if i < k then "block" else before[i])
  }

  /** The loop head after `k` passes: the node at hand is the `k`-th of the
      chain (null past its end), `result` is what the latest native call
      gave, and the walk from here ends where the walk from the start does. */
  ghost predicate AtLoopHead(chain: seq<Element>, tags: seq<string>, saved: seq<string>, before: seq<string>,
                             calls: nat -> StyleCall, element: Element?, result: Option<map<string, string>>,
                             changes: seq<Change>, k: nat)
    reads chain
  {
    Visited(chain, saved, before, changes, k) && |tags| == |chain| &&
    element == (if k < |chain| then chain[k] else null) &&
    !calls(k).Threw? && result == Attempt(calls(k)) &&
    !calls(0).Threw? && k <= |tags| && Walk(tags, calls, k) == Walk(tags, calls, 0)
  }

  /** A parent chain satisfies what the loop relies on. */
  lemma ParentChainIsFixed(first: Element?, chain: seq<Element>)
    requires ParentChain(first, chain)
    ensures Fixed(chain, Tags(chain), StyleDisplays(chain))
  {
    forall i, j | 0 <= i < j < |chain| ensures chain[i] != chain[j] {
      ParentChainIsDistinct(first, chain, i, j);
    }
  }

  /** One pass of the loop body: save the node's `style.display` in
      `changes`, set its `display` property, move to its parent and call the
      native method again. `threw` tells that this call threw. */
  method Step(ghost chain: seq<Element>, ghost tags: seq<string>, ghost saved: seq<string>, ghost before: seq<string>,
              calls: nat -> StyleCall, element: Element, result: Option<map<string, string>>,
              changes: seq<Change>, k: nat)
    returns (parent: Element?, result': Option<map<string, string>>, changes': seq<Change>, threw: bool)
    requires Fixed(chain, tags, saved)
    requires AtLoopHead(chain, tags, saved, before, calls, element, result, changes, k)
    requires element.tagName != "" && result.None?
    modifies element`display
    ensures Fixed(chain, tags, saved)
    ensures Visited(chain, saved, before, changes', k + 1)
    ensures threw == calls(k + 1).Threw?
    ensures threw ==> Walk(tags, calls, 0) == Faulted(k + 1)
    ensures !threw ==> AtLoopHead(chain, tags, saved, before, calls, parent, result', changes', k + 1)
  {
    WalkAdvances(tags, calls, k);
    changes' := changes + [Change(element, element.styleDisplay)];
    element.display := "block";
    parent := element.parentNode;
    threw := calls(k + 1).Threw?;
    result' := None;
    if !threw {
      result' := AttemptStyle(calls(k + 1));
    }
  }

  /** The `while` loop of the override, from the frame element up, after a
      first native call that did not throw. It answers the way the loop is
      left, with the number of ancestors visited, and the `changes` array. */
  method VisitAncestors(frameElement: Element?, ghost chain: seq<Element>, calls: nat -> StyleCall,
                        ghost tags: seq<string>, ghost saved: seq<string>, ghost before: seq<string>)
    returns (w: WalkEnd, changes: seq<Change>)
    requires Fixed(chain, tags, saved) && |before| == |chain|
    requires frameElement == if chain == [] then null else chain[0]
    requires forall i :: 0 <= i < |chain| ==> chain[i].display == before[i]
    requires !calls(0).Threw?
    modifies chain`display
    ensures w == Walk(tags, calls, 0) && w.steps <= |chain|
    ensures Fixed(chain, tags, saved)
    ensures Visited(chain, saved, before, changes, w.steps)
  {
    var result := AttemptStyle(calls(0));
    changes := [];
    var element := frameElement;
    var k: nat := 0;  // passes so far, the index of the latest native call
    while element != null && element.tagName != "" && result.None?
      invariant Fixed(chain, tags, saved)
      invariant AtLoopHead(chain, tags, saved, before, calls, element, result, changes, k)
      decreases |chain| - k
    {
      var threw;
      element, result, changes, threw := Step(chain, tags, saved, before, calls, element, result, changes, k);
      k := k + 1;
      if threw {
        return Faulted(k), changes;
      }
    }
    WalkExits(tags, calls, k);
    // the loop test reads `tagName` of a null node first, which throws
    w := if element == null then Faulted(k) else if result.Some? then Found(k, result.value) else NoStyle(k);
  }

  /** `changes.forEach(ch => ch.element.style.display = ch.display)` for
      the array the loop built: the first `|changes|` nodes of `chain` get
      their saved values back, the others keep theirs. */
  method RestoreDisplays(changes: seq<Change>, ghost chain: seq<Element>, ghost saved: seq<string>)
    requires |changes| <= |chain| == |saved|
    requires forall i :: 0 <= i < |changes| ==> changes[i] == Change(chain[i], saved[i])
    requires forall i, j :: 0 <= i < j < |chain| ==> chain[i] != chain[j]
    modifies chain`styleDisplay
    ensures forall i :: 0 <= i < |chain| ==>
      chain[i].styleDisplay == if i < |changes| then saved[i] else old(chain[i].styleDisplay)
  {
    for n := 0 to |changes|
      invariant forall i :: 0 <= i < |chain| ==>
        chain[i].styleDisplay == if i < n then saved[i] else old(chain[i].styleDisplay)
    {
      changes[n].element.styleDisplay := changes[n].display;
    }
  }

  /** The `getComputedStyle` override for a window whose frame element is
      `frameElement`; `calls(k)` is the outcome of the k-th call of the
      native method (call 0 precedes the try block, so its exception
      propagates). Each visited ancestor gets its plain `display` property
      set to 'block'; `style.display`, which is what is saved and written
      back, is never changed. When an exception ends the walk, the catch
      answers null and nothing is written back. */
  method ComputedStyleOverride(frameElement: Element?, ghost chain: seq<Element>, calls: nat -> StyleCall)
    returns (c: Completion)
    requires ParentChain(frameElement, chain)
    modifies chain`display, chain`styleDisplay
    ensures calls(0).Threw? ==> c == Abrupt(Native(calls(0).exception))
    ensures !calls(0).Threw? ==> c == Normal(WalkResult(old(Walk(Tags(chain), calls, 0))))
    ensures forall i :: 0 <= i < |chain| ==> chain[i].styleDisplay == old(chain[i].styleDisplay)
    ensures forall i :: 0 <= i < |chain| ==>
      chain[i].display ==
        if !calls(0).Threw? && i < old(Walk(Tags(chain), calls, 0)).steps then "block"
        else old(chain[i].display)
  {
    if calls(0).Threw? {
      return Abrupt(Native(calls(0).exception));
    }
    ghost var tags, saved, before := Tags(chain), StyleDisplays(chain), Displays(chain);
    ParentChainIsFixed(frameElement, chain);
    var w, changes := VisitAncestors(frameElement, chain, calls, tags, saved, before);
    if w.Faulted? {
      return Normal(Null);
    }
    RestoreDisplays(changes, chain, saved);
    c := Normal(if w.Found? then Record(w.props) else Null);
  }
}
