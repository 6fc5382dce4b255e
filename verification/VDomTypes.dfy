/** Virtual DOM elements and the pure helpers around them (vdom.go, vdom_types.go). */
module VDomTypes {
  import opened Basics
  import opened Wrappers

  /** The id of a mounted component, of a text node on the wire ("text-N"), or none. */
  datatype StarId = NoId | Uuid(n: nat) | TextId(n: nat)

  type Val = string

  datatype PropVal = PStr(s: string) | POther(n: int)

  datatype Elem = Elem(starId: StarId, tag: string, props: map<string, PropVal>, children: seq<Elem>, text: string)

  const TEXT_TAG := "#text"
  const FRAGMENT_TAG := "#fragment"
  const KEY_PROP := "key"

  /** VDomElem.Key */
  function Key(e: Elem): string {
    if KEY_PROP in e.props && e.props[KEY_PROP].PStr? then e.props[KEY_PROP].s else ""
  }

  /** unicode.IsLower on a byte */
  predicate IsLower(c: char) {
    'a' <= c <= 'z' || c == '\U{b5}' || ('\U{df}' <= c <= '\U{ff}' && c != '\U{f7}')
  }

  predicate IsBaseTag(tag: string) {
    |tag| > 0 && (tag[0] == '#' || IsLower(tag[0]) || HasPrefix(tag, "star:") || HasPrefix(tag, "w:"))
  }

  /** What a component function may return: nil, text, an element, or a slice of these. */
  datatype Part = PartNil | PartText(s: string) | PartElem(e: Elem) | PartList(parts: seq<Part>)

  function PartToElems(part: Part): seq<Elem> {
    match part
    case PartNil => []
    case PartText(s) => [Elem(NoId, TEXT_TAG, map[], [], s)]
    case PartElem(e) => [e]
    case PartList(parts) => PartsToElems(parts)
  }

  function PartsToElems(parts: seq<Part>): seq<Elem> {
    if parts == [] then [] else PartToElems(parts[0]) + PartsToElems(parts[1..])
  }

  /** One call of UseState, UseAtom or UseEffect by a component function. */
  datatype HookCall = UseState(initial: Val) | UseAtom(name: string) | UseEffect(deps: Val)

  /** A hook slot. `cleanup` is the atom whose user set the slot's UnmountFn removes the component from. */
  datatype Hook = Hook(init: bool, val: Val, cleanup: Option<string>)

  /** What a component function does next: call a hook, or return. */
  datatype Move = Call(call: HookCall) | Return(part: Part)

  /** A component function, given by what it does next for an element when its calls so far have returned `vals`; after
      finitely many calls it returns, as `left` goes down with every call. */
  datatype Func = CFunc(left: (Elem, seq<Val>) -> ORDINAL, next: (Elem, seq<Val>) -> Move)

  ghost predicate Returns(f: Func) {
    forall e, vals, v :: f.next(e, vals).Call? ==> f.left(e, vals + [v]) < f.left(e, vals)
  }

  type CFunc = f: Func | Returns(f) witness CFunc((_, _) => 0, (e, vals) => Return(PartNil))

  /** The registered functions and the current atom values. */
  datatype Env = Env(cfuncs: map<string, CFunc>, atoms: map<string, Val>)

  function AtomVal(env: Env, name: string): Val {
    if name in env.atoms then env.atoms[name] else ""
  }

  const FRESH_HOOK := Hook(false, "", None)

  function SlotOrFresh(hooks: seq<Hook>, i: nat): Hook {
    if i < |hooks| then hooks[i] else FRESH_HOOK
  }

  /** The slot after the call. */
  function HookAfter(h: Hook, call: HookCall): Hook {
    match call
    case UseState(initial) => if h.init then h else Hook(true, initial, h.cleanup)
    case UseAtom(name) => if h.init then h else Hook(true, h.val, Some(name))
    case UseEffect(deps) => h.(init := true, val := deps)
  }

  /** The value a call returns, from its slot after the call. */
  function HookValue(env: Env, h: Hook, call: HookCall): Val {
    match call
    case UseState(_) => h.val
    case UseAtom(name) => AtomVal(env, name)
    case UseEffect(_) => ""
  }

  /** All slots after all calls. */
  function HooksAfter(hooks: seq<Hook>, calls: seq<HookCall>): (r: seq<Hook>)
    ensures |r| == Max(|hooks|, |calls|)
  {
    seq(Max(|hooks|, |calls|), i requires 0 <= i < Max(|hooks|, |calls|) =>
      if i < |calls| then HookAfter(SlotOrFresh(hooks, i), calls[i]) else hooks[i])
  }

  /** The value that the next call returns after calls that returned `vals`. */
  function NextVal(env: Env, hooks: seq<Hook>, vals: seq<Val>, call: HookCall): Val {
    HookValue(env, HookAfter(SlotOrFresh(hooks, |vals|), call), call)
  }

  /** The calls that a component function goes on to make on its hook slots. */
  function CallsFrom(env: Env, hooks: seq<Hook>, f: CFunc, e: Elem, vals: seq<Val>): seq<HookCall>
    decreases f.left(e, vals)
  {
    match f.next(e, vals)
    case Return(_) => []
    case Call(call) => [call] + CallsFrom(env, hooks, f, e, vals + [NextVal(env, hooks, vals, call)])
  }

  /** What it returns in the end. */
  function PartFrom(env: Env, hooks: seq<Hook>, f: CFunc, e: Elem, vals: seq<Val>): Part
    decreases f.left(e, vals)
  {
    match f.next(e, vals)
    case Return(part) => part
    case Call(call) => PartFrom(env, hooks, f, e, vals + [NextVal(env, hooks, vals, call)])
  }

  function CallsOf(env: Env, e: Elem, hooks: seq<Hook>): seq<HookCall>
    requires e.tag in env.cfuncs
  {
    CallsFrom(env, hooks, env.cfuncs[e.tag], e, [])
  }

  /** The element that what a component function returns is rendered as. */
  function ResultElem(part: Part): Option<Elem> {
    var arr := PartToElems(part);
    if |arr| == 0 then None
    else if |arr| == 1 then Some(arr[0])
    else Some(Elem(NoId, FRAGMENT_TAG, map[], arr, ""))
  }

  /** The element that a component is rendered as, on its hook slots. */
  function Output(env: Env, e: Elem, hooks: seq<Hook>): Option<Elem>
    requires e.tag in env.cfuncs
  {
    ResultElem(PartFrom(env, hooks, env.cfuncs[e.tag], e, []))
  }

  /** With the slots that its calls have left, a component makes the same calls again and gives the same result. */
  lemma {:induction false} CallsAgain(env: Env, hooks: seq<Hook>, hooks': seq<Hook>, f: CFunc, e: Elem, vals: seq<Val>)
    requires var calls := CallsFrom(env, hooks, f, e, vals);
      |vals| + |calls| <= |hooks'| &&
      forall k :: 0 <= k < |calls| ==>
        hooks'[|vals| + k] == HookAfter(SlotOrFresh(hooks, |vals| + k), calls[k])
    ensures CallsFrom(env, hooks', f, e, vals) == CallsFrom(env, hooks, f, e, vals)
    ensures PartFrom(env, hooks', f, e, vals) == PartFrom(env, hooks, f, e, vals)
    decreases f.left(e, vals)
  {
    if f.next(e, vals).Call? {
      var call := f.next(e, vals).call;
      var calls := CallsFrom(env, hooks, f, e, vals);
      assert calls[0] == call && hooks'[|vals| + 0] == HookAfter(SlotOrFresh(hooks, |vals|), call);
      var vals' := vals + [NextVal(env, hooks, vals, call)];
      assert calls[1..] == CallsFrom(env, hooks, f, e, vals');
      forall k | 0 <= k < |calls| - 1
        ensures hooks'[|vals'| + k] == HookAfter(SlotOrFresh(hooks, |vals'| + k), calls[1..][k])
      {
        assert calls[1..][k] == calls[k + 1];
        assert hooks'[|vals| + (k + 1)] == HookAfter(SlotOrFresh(hooks, |vals| + (k + 1)), calls[k + 1]);
      }
      CallsAgain(env, hooks, hooks', f, e, vals');
    }
  }

  lemma OutputAgain(env: Env, e: Elem, hooks: seq<Hook>)
    requires e.tag in env.cfuncs
    ensures var hooks' := HooksAfter(hooks, CallsOf(env, e, hooks));
      CallsOf(env, e, hooks') == CallsOf(env, e, hooks) && Output(env, e, hooks') == Output(env, e, hooks)
  {
    hide CallsFrom, PartFrom, HookAfter, SlotOrFresh, ResultElem;
    CallsAgain(env, hooks, HooksAfter(hooks, CallsOf(env, e, hooks)), env.cfuncs[e.tag], e, []);
  }

  /** The effects that a component's calls queue: those whose slot is new or has had other dependencies. */
  function OwnEffects(id: StarId, hooks: seq<Hook>, calls: seq<HookCall>): seq<(StarId, nat)> {
    if calls == [] then []
    else
      var n := |calls| - 1;
      var h := SlotOrFresh(hooks, n);
      OwnEffects(id, hooks, calls[..n]) +
      (if calls[n].UseEffect? && !(h.init && h.val == calls[n].deps) then [(id, n)] else [])
  }

  /** An effect is queued by the calls of a component exactly if it is called on a slot that is new, has not been called
      yet, or holds other dependencies; */
  lemma {:induction false} EffectsMeaning(id: StarId, hooks: seq<Hook>, calls: seq<HookCall>, x: (StarId, nat))
    ensures x in OwnEffects(id, hooks, calls) <==>
      && x.0 == id && x.1 < |calls| && calls[x.1].UseEffect?
      && (x.1 >= |hooks| || !hooks[x.1].init || hooks[x.1].val != calls[x.1].deps)
  {
    if calls != [] {
      EffectsMeaning(id, hooks, calls[..|calls| - 1], x);
    }
  }

  /** so the same calls on the slots that they have left queue nothing. */
  lemma {:induction false} EffectsOnce(id: StarId, hooks: seq<Hook>, calls: seq<HookCall>, n: nat)
    requires n <= |calls|
    ensures OwnEffects(id, HooksAfter(hooks, calls), calls[..n]) == []
  {
    if n > 0 {
      EffectsOnce(id, hooks, calls, n - 1);
      assert calls[..n][..n - 1] == calls[..n - 1];
    }
  }

  // ---------------------------------------------------------------- what is returned and rendered

  /** What a component function returns is rendered part by part, in order. */
  lemma {:induction false} PartsInOrder(a: seq<Part>, b: seq<Part>)
    ensures PartsToElems(a + b) == PartsToElems(a) + PartsToElems(b)
    ensures forall e :: PartsToElems([PartElem(e)]) == [e]
    ensures forall s :: PartsToElems([PartText(s)]) == [Elem(NoId, "#text", map[], [], s)]
    ensures PartsToElems([PartNil]) == []
    ensures forall parts :: PartsToElems([PartList(parts)]) == PartsToElems(parts)
  {
    assert forall p: Part :: [p][1..] == [] && PartsToElems([p]) == PartToElems(p) + [];
    if a == [] {
      assert a + b == b;
    } else {
      PartsInOrder(a[1..], b);
      assert (a + b)[1..] == a[1..] + b;
    }
  }

  /** Nothing is rendered as nothing, one element as itself, and several as a fragment around them. */
  lemma ResultMeaning(parts: seq<Part>)
    ensures var es, r := PartsToElems(parts), ResultElem(PartList(parts));
      && (|es| == 0 <==> r.None?)
      && (|es| == 1 ==> r == Some(es[0]))
      && (|es| > 1 ==> r == Some(Elem(NoId, "#fragment", map[], es, "")))
  {
  }

  /** Which tags are not looked up among the component functions */
  lemma BaseTags(c: char, s: string)
    ensures !IsBaseTag("") && IsBaseTag("#" + s) && ('a' <= c <= 'z' ==> IsBaseTag([c] + s))
    ensures IsBaseTag("star:" + s) && IsBaseTag("w:" + s) && ('A' <= c <= 'Z' ==> !IsBaseTag([c] + s))
  {
    assert ([c] + s)[0] == c && ("#" + s)[0] == '#' && ("star:" + s)[0] == 's' && ("w:" + s)[0] == 'w';
    if 'A' <= c <= 'Z' {
      assert "star:"[0] == 's' && "w:"[0] == 'w';
    }
  }

  /** The key of an element is its property "key", if that is a string. */
  lemma KeyMeaning(e: Elem, s: string)
    requires s != ""
    ensures Key(e) == s <==> "key" in e.props && e.props["key"] == PStr(s)
  {
  }

  // ---------------------------------------------------------------- what the reconciler asks of its input

  /** No two siblings with the same tag and non-empty key, and no child without a tag. */
  ghost predicate GoodSiblings(es: seq<Elem>) {
    && (forall i :: 0 <= i < |es| ==> es[i].tag != "")
    && (forall i, j :: 0 <= i < j < |es| && Key(es[i]) != "" && es[i].tag == es[j].tag ==> Key(es[i]) != Key(es[j]))
  }

  predicate HasChildren(e: Elem) {
    IsBaseTag(e.tag) && e.tag != TEXT_TAG
  }

  predicate IsFunc(cfuncs: map<string, CFunc>, tag: string) {
    !IsBaseTag(tag) && tag in cfuncs
  }

  /** The elements that are rendered, and a rank that goes down from each to what it is made of. */
  datatype Scope = Scope(has: Elem -> bool, rank: Elem -> ORDINAL)

  /** Expanding an element of the scope leads to good siblings, stays in the scope and comes to an end. */
  ghost predicate Closed(cfuncs: map<string, CFunc>, scope: Scope) {
    forall e :: scope.has(e) ==> Inside(cfuncs, scope, e)
  }

  ghost predicate Inside(cfuncs: map<string, CFunc>, scope: Scope, e: Elem) {
    && e.tag != ""
    && (HasChildren(e) ==>
          GoodSiblings(e.children) && forall i :: 0 <= i < |e.children| ==> Below(scope, e.children[i], e))
    && (IsFunc(cfuncs, e.tag) ==> forall atoms, hooks :: ResultBelow(scope, Output(Env(cfuncs, atoms), e, hooks), e))
  }

  ghost predicate Below(scope: Scope, part: Elem, e: Elem) {
    scope.has(part) && scope.rank(part) < scope.rank(e)
  }

  ghost predicate ResultBelow(scope: Scope, r: Option<Elem>, e: Elem) {
    r.Some? ==> scope.rank(r.value) < scope.rank(e) && (r.value.tag != "" ==> scope.has(r.value))
  }
}
