/** The components of the repository's own test, Page and Button (vdom_test.go), and a scope for them. Button shows the
    children it is given. */
module VDomTestPage {
  import opened Wrappers
  import opened VDomTypes
  import opened VDomTree
  import opened VDomFrames
  import opened VDomExpand
  import opened VDomRoot
  import opened VDomRuns

  function TextElem(s: string): Elem {
    Elem(NoId, TEXT_TAG, map[], [], s)
  }

  function ButtonNext(e: Elem, vals: seq<Val>): Move {
    if |vals| == 0 then Call(UseState("button"))
    else if |vals| == 1 then Call(UseEffect(""))
    else Return(PartElem(Elem(NoId, "div", map["className" := PStr(vals[0])], e.children, "")))
  }

  const BUTTON: CFunc := CFunc((_, vals: seq<Val>) => if |vals| < 2 then (2 - |vals|) as ORDINAL else 0, ButtonNext)

  const PAGE_ELEM := Elem(NoId, "Page", map[], [], "")
  const BUTTON_ELEM := Elem(NoId, "Button", map[], [TextElem("hello")], "")

  function PageBody(clicked: bool): Elem {
    var h1 := Elem(NoId, "h1", map[], [TextElem("hello world")], "");
    var clickedDiv := Elem(NoId, "div", map[], [TextElem("clicked")], "");
    Elem(NoId, "div", map[], [h1, BUTTON_ELEM] + if clicked then [clickedDiv] else [], "")
  }

  function PageNext(e: Elem, vals: seq<Val>): Move {
    if |vals| == 0 then Call(UseState("false")) else Return(PartElem(PageBody(vals[0] == "true")))
  }

  const PAGE: CFunc := CFunc((_, vals: seq<Val>) => if |vals| < 1 then 1 else 0, PageNext)

  const FUNCS: map<string, CFunc> := map["Page" := PAGE, "Button" := BUTTON]

  /** Good siblings everywhere, also among the children that are given to components */
  ghost predicate Plain(e: Elem) {
    && e.tag != ""
    && (e.tag != TEXT_TAG ==> GoodSiblings(e.children) && forall c :: c in e.children ==> Plain(c))
  }

  ghost function Weight(e: Elem): nat {
    WeightAll(e.children) + OwnWeight(e.tag)
  }

  function OwnWeight(tag: string): nat {
    if tag == "Page" then 10 else if tag == "Button" then 2 else 1
  }

  ghost function WeightAll(es: seq<Elem>): nat {
    if es == [] then 0 else Weight(es[0]) + WeightAll(es[1..])
  }

  lemma {:induction false} ChildWeight(es: seq<Elem>, i: nat)
    requires i < |es|
    ensures Weight(es[i]) <= WeightAll(es)
  {
    if i > 0 {
      ChildWeight(es[1..], i - 1);
    }
  }

  ghost const SCOPE := Scope(e => Plain(e), e => Weight(e) as ORDINAL)

  /** Page and Button may be mounted with any elements of the scope. */
  lemma PageInScope()
    ensures Closed(FUNCS, SCOPE) && SCOPE.has(PAGE_ELEM)
  {
    forall e | SCOPE.has(e)
      ensures Inside(FUNCS, SCOPE, e)
    {
      forall i | 0 <= i < |e.children| && HasChildren(e)
        ensures Below(SCOPE, e.children[i], e)
      {
        ChildWeight(e.children, i);
      }
      forall atoms, hooks | IsFunc(FUNCS, e.tag)
        ensures ResultBelow(SCOPE, Output(Env(FUNCS, atoms), e, hooks), e)
      {
        if e.tag == "Page" {
          PageOutput(atoms, e, hooks);
        } else {
          ButtonOutput(atoms, e, hooks);
        }
      }
    }
  }

  lemma ButtonOutput(atoms: map<string, Val>, e: Elem, hooks: seq<Hook>)
    requires e.tag == "Button" && Plain(e)
    ensures ResultBelow(SCOPE, Output(Env(FUNCS, atoms), e, hooks), e)
  {
    var env := Env(FUNCS, atoms);
    var v0 := NextVal(env, hooks, [], UseState("button"));
    assert [] + [v0] == [v0] && [v0] + [""] == [v0, ""];
    assert PartFrom(env, hooks, BUTTON, e, [v0]) == PartFrom(env, hooks, BUTTON, e, [v0, ""]);
    assert PartFrom(env, hooks, BUTTON, e, []) == PartFrom(env, hooks, BUTTON, e, [v0]);
  }

  lemma PageOutput(atoms: map<string, Val>, e: Elem, hooks: seq<Hook>)
    requires e.tag == "Page" && Plain(e)
    ensures ResultBelow(SCOPE, Output(Env(FUNCS, atoms), e, hooks), e)
  {
    var env := Env(FUNCS, atoms);
    var v0 := NextVal(env, hooks, [], UseState("false"));
    assert [] + [v0] == [v0];
    assert PartFrom(env, hooks, PAGE, e, []) == PartFrom(env, hooks, PAGE, e, [v0]);
    PageBodyInScope(v0 == "true");
  }

  lemma PageCalls(env: Env, e: Elem, hooks: seq<Hook>)
    ensures CallsFrom(env, hooks, PAGE, e, []) == [UseState("false")]
  {
    var v0 := NextVal(env, hooks, [], UseState("false"));
    assert CallsFrom(env, hooks, PAGE, e, [] + [v0]) == [];
  }

  lemma ButtonCalls(env: Env, e: Elem, hooks: seq<Hook>)
    ensures CallsFrom(env, hooks, BUTTON, e, []) == [UseState("button"), UseEffect("")]
  {
    var v0 := NextVal(env, hooks, [], UseState("button"));
    assert CallsFrom(env, hooks, BUTTON, e, [v0] + [""]) == [];
    assert [] + [v0] == [v0] && CallsFrom(env, hooks, BUTTON, e, [v0]) == [UseEffect("")];
  }

  /** Both keep the rules of hooks. */
  lemma PageKeepsRules()
    ensures StableHooks(FUNCS)
  {
    hide CallsFrom;
    forall env, hooks, e: Elem | e.tag in FUNCS
      ensures CallsFrom(env, hooks, FUNCS[e.tag], e, []) ==
        if e.tag == "Page" then [UseState("false")] else [UseState("button"), UseEffect("")]
    {
      if e.tag == "Page" {
        PageCalls(env, e, hooks);
      } else {
        ButtonCalls(env, e, hooks);
      }
    }
  }

  lemma TextInScope(s: string)
    ensures Plain(TextElem(s)) && Weight(TextElem(s)) == 1
  {
  }

  /** An element around a text */
  lemma AroundText(e: Elem, s: string)
    requires e.children == [TextElem(s)] && e.tag != "" && e.tag != "Page" && Key(e) == ""
    ensures Plain(e) && Weight(e) <= if e.tag == "Button" then 3 else 2
  {
    TextInScope(s);
    assert e.children[1..] == [] && WeightAll(e.children) == 1;
  }

  lemma PageBodyInScope(clicked: bool)
    ensures Plain(PageBody(clicked)) && Weight(PageBody(clicked)) <= 8
  {
    var es := PageBody(clicked).children;
    AroundText(es[0], "hello world");
    AroundText(es[1], "hello");
    if clicked {
      AroundText(es[2], "clicked");
    }
    hide Plain, Weight;
    assert WeightAll(es[2..]) <= 2 by {
      assert es[2..] == if clicked then [es[2]] else [];
    }
    assert es[1..][1..] == es[2..] && WeightAll(es[1..]) <= 5;
    PlainBody(clicked);
    BodyWeight(clicked);
  }

  lemma PlainBody(clicked: bool)
    requires forall c :: c in PageBody(clicked).children ==> Plain(c)
    ensures Plain(PageBody(clicked))
  {
  }

  lemma BodyWeight(clicked: bool)
    ensures Weight(PageBody(clicked)) == WeightAll(PageBody(clicked).children) + 1
  {
  }

  // ---------------------------------------------------------------- mounting the page

  /** What the page is to look like */
  function PageVDom(className: string, clicked: bool): Elem {
    var h1 := Elem(NoId, "h1", map[], [TextElem("hello world")], "");
    var button := Elem(NoId, "div", map["className" := PStr(className)], [TextElem("hello")], "");
    var clickedDiv := Elem(NoId, "div", map[], [TextElem("clicked")], "");
    Elem(NoId, "div", map[], [h1, button] + if clicked then [clickedDiv] else [], "")
  }

  /** The state in the first slot of a component, or its initial value */
  function FirstState(prev: Option<Tree>, e: Elem, initial: Val): Val {
    var h := SlotOrFresh(OldHooks(prev, e), 0);
    if h.init then h.val else initial
  }

  lemma TextExpands(atoms: map<string, Val>, e: Elem, prev: Option<Tree>)
    requires Closed(FUNCS, SCOPE) && e.tag == TEXT_TAG && SCOPE.has(e)
    ensures Expand(Env(FUNCS, atoms), SCOPE, e, prev) == Some(TextElem(e.text))
  {
  }

  lemma AroundTextExpands(atoms: map<string, Val>, e: Elem, s: string, prev: Option<Tree>)
    requires Closed(FUNCS, SCOPE) && SCOPE.has(e) && HasChildren(e) && e.children == [TextElem(s)]
    ensures Expand(Env(FUNCS, atoms), SCOPE, e, prev) == Some(Elem(NoId, e.tag, e.props, [TextElem(s)], ""))
  {
    var env := Env(FUNCS, atoms);
    hide Closed, Plain;
    ChildrenInScope(FUNCS, SCOPE, e);
    var olds := OldKids(prev, e);
    TextExpands(atoms, e.children[0], MatchOf(olds, e.children[0], 0));
    ExpandKidsStep(env, SCOPE, e, 1, olds);
    assert ExpandKids(env, SCOPE, e, 0, olds) == [];
    assert ExpandKids(env, SCOPE, e, 1, olds) == [] + [TextElem(s)] == [TextElem(s)];
  }

  lemma ButtonExpands(atoms: map<string, Val>, prev: Option<Tree>)
    requires Closed(FUNCS, SCOPE) && SCOPE.has(BUTTON_ELEM)
    ensures Expand(Env(FUNCS, atoms), SCOPE, BUTTON_ELEM, prev) ==
      Some(PageVDom(FirstState(prev, BUTTON_ELEM, "button"), false).children[1])
  {
    var env, hooks := Env(FUNCS, atoms), OldHooks(prev, BUTTON_ELEM);
    var v0 := NextVal(env, hooks, [], UseState("button"));
    assert v0 == FirstState(prev, BUTTON_ELEM, "button");
    var div := Elem(NoId, "div", map["className" := PStr(v0)], BUTTON_ELEM.children, "");
    assert Output(env, BUTTON_ELEM, hooks) == Some(div) by {
      assert [] + [v0] == [v0] && [v0] + [""] == [v0, ""];
      assert PartFrom(env, hooks, BUTTON, BUTTON_ELEM, [v0]) == PartFrom(env, hooks, BUTTON, BUTTON_ELEM, [v0, ""]);
      assert PartFrom(env, hooks, BUTTON, BUTTON_ELEM, []) == PartFrom(env, hooks, BUTTON, BUTTON_ELEM, [v0]);
    }
    hide Closed, Plain, Output;
    ExpandFunc(env, SCOPE, BUTTON_ELEM, prev);
    AroundTextExpands(atoms, div, "hello", FirstKid(OldKids(prev, BUTTON_ELEM)));
  }

  /** The i-th child of the body; the button takes over an old component or none */
  lemma BodyKidExpands(atoms: map<string, Val>, clicked: bool, i: nat, olds: seq<Tree>)
    requires Closed(FUNCS, SCOPE) && i < |PageBody(clicked).children| && SCOPE.has(PageBody(clicked).children[i])
    ensures var e := PageBody(clicked).children[i];
      var vdom := PageVDom(FirstState(MatchOf(olds, BUTTON_ELEM, 1), BUTTON_ELEM, "button"), clicked);
      Expand(Env(FUNCS, atoms), SCOPE, e, MatchOf(olds, e, i)) == Some(vdom.children[i])
  {
    hide Closed, Plain, MatchOf, FirstState, Expand;
    var e := PageBody(clicked).children[i];
    if i == 1 {
      ButtonExpands(atoms, MatchOf(olds, e, i));
    } else {
      AroundTextExpands(atoms, e, if i == 0 then "hello world" else "clicked", MatchOf(olds, e, i));
    }
  }

  lemma BodyShape(className: string, clicked: bool)
    ensures var body, vdom := PageBody(clicked), PageVDom(className, clicked);
      HasChildren(body) && |vdom.children| == |body.children| &&
      vdom == Elem(NoId, body.tag, body.props, vdom.children, "")
  {
  }

  lemma BodyExpands(atoms: map<string, Val>, clicked: bool, prev: Option<Tree>)
    requires Closed(FUNCS, SCOPE) && SCOPE.has(PageBody(clicked))
    ensures var button := MatchOf(OldKids(prev, PageBody(clicked)), BUTTON_ELEM, 1);
      Expand(Env(FUNCS, atoms), SCOPE, PageBody(clicked), prev) ==
      Some(PageVDom(FirstState(button, BUTTON_ELEM, "button"), clicked))
  {
    var env, body, olds := Env(FUNCS, atoms), PageBody(clicked), OldKids(prev, PageBody(clicked));
    var vdom := PageVDom(FirstState(MatchOf(olds, BUTTON_ELEM, 1), BUTTON_ELEM, "button"), clicked);
    hide Closed, Plain, MatchOf, OldKids, FirstState, Expand, ExpandKids, GoodSiblings, PageBody, PageVDom, HasChildren;
    BodyShape(FirstState(MatchOf(olds, BUTTON_ELEM, 1), BUTTON_ELEM, "button"), clicked);
    ChildrenInScope(FUNCS, SCOPE, body);
    forall i | 0 <= i < |body.children|
      ensures Expand(env, SCOPE, body.children[i], MatchOf(olds, body.children[i], i)) == Some(vdom.children[i])
    {
      BodyKidExpands(atoms, clicked, i, olds);
    }
    ExpandAround(env, SCOPE, body, prev, vdom.children);
  }

  lemma PageResult(env: Env, hooks: seq<Hook>)
    requires env.cfuncs == FUNCS
    ensures var h := SlotOrFresh(hooks, 0);
      Output(env, PAGE_ELEM, hooks) == Some(PageBody((if h.init then h.val else "false") == "true"))
  {
    var v0 := NextVal(env, hooks, [], UseState("false"));
    assert [] + [v0] == [v0] && PartFrom(env, hooks, PAGE, PAGE_ELEM, [v0]).PartElem?;
    assert PartFrom(env, hooks, PAGE, PAGE_ELEM, []) == PartFrom(env, hooks, PAGE, PAGE_ELEM, [v0]);
  }

  lemma PageExpands(atoms: map<string, Val>, prev: Option<Tree>)
    requires Closed(FUNCS, SCOPE) && SCOPE.has(PAGE_ELEM)
    ensures var clicked := FirstState(prev, PAGE_ELEM, "false") == "true";
      var button := MatchOf(OldKids(FirstKid(OldKids(prev, PAGE_ELEM)), PageBody(clicked)), BUTTON_ELEM, 1);
      Expand(Env(FUNCS, atoms), SCOPE, PAGE_ELEM, prev) ==
      Some(PageVDom(FirstState(button, BUTTON_ELEM, "button"), clicked))
  {
    var env, hooks := Env(FUNCS, atoms), OldHooks(prev, PAGE_ELEM);
    var v0 := FirstState(prev, PAGE_ELEM, "false");
    PageResult(env, hooks);
    hide Closed, Plain, Output, MatchOf, OldKids, FirstState;
    ExpandFunc(env, SCOPE, PAGE_ELEM, prev);
    BodyExpands(atoms, v0 == "true", FirstKid(OldKids(prev, PAGE_ELEM)));
  }

  lemma NewPageExpands(atoms: map<string, Val>)
    requires Closed(FUNCS, SCOPE) && SCOPE.has(PAGE_ELEM)
    ensures Expand(Env(FUNCS, atoms), SCOPE, PAGE_ELEM, None) == Some(PageVDom("button", false))
  {
    hide Expand, Closed, Plain;
    PageExpands(atoms, None);
  }

  /** A page that has been mounted for the first time, and is clicked */
  lemma ClickedPageExpands(atoms: map<string, Val>, lo: nat, hi: nat, m: CompMap, u: UsedBy, t: Tree)
    requires Closed(FUNCS, SCOPE) && SCOPE.has(PAGE_ELEM) && Mounted(FUNCS, m, u, Some(t))
    requires Shows(Env(FUNCS, atoms), PAGE_ELEM, t) && Carried(Env(FUNCS, atoms), lo, hi, None, PAGE_ELEM, t)
    ensures Expand(Env(FUNCS, atoms), SCOPE, PAGE_ELEM, Some(SetHook(t, t.id, 0, "true"))) ==
      Some(PageVDom("button", true))
    ensures t.c.elem == PAGE_ELEM
  {
    FirstPage(atoms, lo, hi, t);
    FirstButton(atoms, lo, hi, t.kids[0]);
    hide Expand, Closed, Plain, Shows, Carried, Mounted, SetHook, OldKids, FirstKid, MatchOf, FirstState;
    ClickedPage(FUNCS, m, u, t);
    PageExpands(atoms, Some(SetHook(t, t.id, 0, "true")));
  }

  /** Mounted for the first time, the page has the body below it, */
  lemma FirstPage(atoms: map<string, Val>, lo: nat, hi: nat, t: Tree)
    requires Closed(FUNCS, SCOPE) && SCOPE.has(PAGE_ELEM)
    requires Shows(Env(FUNCS, atoms), PAGE_ELEM, t) && Carried(Env(FUNCS, atoms), lo, hi, None, PAGE_ELEM, t)
    ensures t.c.tag == "Page" && t.c.key == "" && t.c.elem == PAGE_ELEM && t.c.hooks == [Hook(true, "false", None)]
    ensures SCOPE.has(PageBody(false)) && |t.kids| == 1
    ensures Shows(Env(FUNCS, atoms), PageBody(false), t.kids[0])
    ensures Carried(Env(FUNCS, atoms), lo, hi, None, PageBody(false), t.kids[0])
  {
    var env := Env(FUNCS, atoms);
    hide Closed, Plain, Expand, CallsFrom, Output;
    PageCalls(env, PAGE_ELEM, []);
    PageResult(env, []);
    FuncFacts(env, lo, hi, None, PAGE_ELEM, t);
    ExpandFunc(env, SCOPE, PAGE_ELEM, None);
  }

  /** in which the button has its initial state. */
  lemma FirstButton(atoms: map<string, Val>, lo: nat, hi: nat, d: Tree)
    requires Closed(FUNCS, SCOPE) && SCOPE.has(PageBody(false))
    requires Shows(Env(FUNCS, atoms), PageBody(false), d)
    requires Carried(Env(FUNCS, atoms), lo, hi, None, PageBody(false), d)
    ensures d.c.tag == "div" && d.c.key == ""
    ensures FirstState(MatchOf(d.kids, BUTTON_ELEM, 1), BUTTON_ELEM, "button") == "button"
  {
    var env := Env(FUNCS, atoms);
    hide Closed, Plain, CallsFrom, Output, MatchOf;
    KidShows(env, SCOPE, PageBody(false), d, 1);
    assert CarriedChild(env, lo, hi, [], BUTTON_ELEM, 1, d.kids[1]);
    ButtonCalls(env, BUTTON_ELEM, []);
  }

  lemma ClickedPage(cfuncs: map<string, CFunc>, m: CompMap, u: UsedBy, t: Tree)
    requires Mounted(cfuncs, m, u, Some(t)) && t.c.tag == "Page" && t.c.key == ""
    requires t.c.hooks == [Hook(true, "false", None)]
    requires |t.kids| == 1 && t.kids[0].c.tag == "div" && t.kids[0].c.key == ""
    ensures var t' := SetHook(t, t.id, 0, "true");
      && FirstState(Some(t'), PAGE_ELEM, "false") == "true"
      && OldKids(FirstKid(OldKids(Some(t'), PAGE_ELEM)), PageBody(true)) == t.kids[0].kids
  {
    var t' := SetHook(t, t.id, 0, "true");
    assert !InAny(t.kids, t.id);
    SetHookOutside(t.kids[0], t.id, 0, "true");
    assert t'.kids == t.kids;
  }

  /** The page is mounted, read out, and clicked: its own state is set, and queued work is done. */
  method ClickPage() returns (before: Option<Elem>, after: Option<Elem>)
    ensures StripO(before) == Some(PageVDom("button", false))
    ensures StripO(after) == Some(PageVDom("button", true))
  {
    hide Closed, Plain, Shows, Carried, Expand, StableHooks, Mounted, TreeOk, Accounted, In, Issued, Listed, Uses,
      Users, ReadOut, Strip, SetHook, PageVDom, WithHookValue;
    PageInScope();
    var r := new RootElem(FUNCS, SCOPE);
    r.RenderRoot(Some(PAGE_ELEM));
    ghost var t := r.tree.value;
    NewPageExpands(map[]);
    ClickedPageExpands(map[], 0, r.nextId, r.compMap, r.owned, t);
    before := r.MakeVDom();
    r.SetState(r.root.value, 0, "true");
    SetHookTop(t, t.id, 0, "true");
    var _ := r.RunWork();
    after := r.MakeVDom();
  }

  // ---------------------------------------------------------------- showing an atom

  const LABEL_ELEM := Elem(NoId, "Label", map[], [], "")

  /** A component that shows an atom as text */
  function Label(name: string): CFunc {
    var f := CFunc((_, vals: seq<Val>) => if |vals| < 1 then 1 else 0,
      (e: Elem, vals: seq<Val>) => if |vals| == 0 then Call(UseAtom(name)) else Return(PartText(vals[0])));
    assert Returns(f);
    f
  }

  ghost const LABEL_SCOPE := Scope(e => e == LABEL_ELEM || e.tag == "#text", e => if e == LABEL_ELEM then 1 else 0)

  lemma LabelOutput(env: Env, name: string, hooks: seq<Hook>)
    requires env.cfuncs == map["Label" := Label(name)]
    ensures exists v :: Output(env, LABEL_ELEM, hooks) == Some(TextElem(v))
    ensures name in env.atoms ==> Output(env, LABEL_ELEM, hooks) == Some(TextElem(env.atoms[name]))
  {
    var v := NextVal(env, hooks, [], UseAtom(name));
    assert [] + [v] == [v] && [PartText(v)][1..] == [];
    assert PartFrom(env, hooks, Label(name), LABEL_ELEM, [v]) == PartText(v);
    assert PartFrom(env, hooks, Label(name), LABEL_ELEM, []) == PartText(v);
    assert Output(env, LABEL_ELEM, hooks) == Some(TextElem(v));
  }

  lemma LabelInScope(name: string)
    ensures Closed(map["Label" := Label(name)], LABEL_SCOPE) && LABEL_SCOPE.has(LABEL_ELEM)
  {
    var funcs := map["Label" := Label(name)];
    forall e | LABEL_SCOPE.has(e)
      ensures Inside(funcs, LABEL_SCOPE, e)
    {
      forall atoms, hooks | IsFunc(funcs, e.tag)
        ensures ResultBelow(LABEL_SCOPE, Output(Env(funcs, atoms), e, hooks), e)
      {
        LabelOutput(Env(funcs, atoms), name, hooks);
      }
    }
  }

  lemma LabelExpands(env: Env, name: string, prev: Option<Tree>)
    requires env.cfuncs == map["Label" := Label(name)] && name in env.atoms
    requires Closed(env.cfuncs, LABEL_SCOPE) && LABEL_SCOPE.has(LABEL_ELEM)
    ensures Expand(env, LABEL_SCOPE, LABEL_ELEM, prev) == Some(TextElem(env.atoms[name]))
  {
    hide Closed, Output, Label;
    LabelOutput(env, name, OldHooks(prev, LABEL_ELEM));
    ExpandFunc(env, LABEL_SCOPE, LABEL_ELEM, prev);
  }

  /** A component that shows an atom shows the value the atom has when it is mounted, and after the setter that it got
      from UseAtom has been called with any value, and queued work is done, that value. */
  method ShowAtom(name: string, initial: Val, val: Val) returns (before: Option<Elem>, after: Option<Elem>)
    ensures StripO(before) == Some(Elem(NoId, "#text", map[], [], initial))
    ensures StripO(after) == Some(Elem(NoId, "#text", map[], [], val))
  {
    hide Closed, Shows, Carried, Expand, StableHooks, Mounted, TreeOk, Accounted, In, Issued, Listed, Users,
      ReadOut, Strip, Label, LABEL_SCOPE, Queued;
    LabelInScope(name);
    var r := new RootElem(map["Label" := Label(name)], LABEL_SCOPE);
    r.SetAtomVal(name, initial, false);
    r.RenderRoot(Some(LABEL_ELEM));
    LabelExpands(r.EnvNow(), name, None);
    before := r.MakeVDom();
    ghost var t := r.tree;
    LabelAsks(r.EnvNow(), name, t.value);
    r.SetFromUseAtom(name, val);
    var _ := r.RunWork();
    LabelExpands(r.EnvNow(), name, t);
    after := r.MakeVDom();
  }

  lemma LabelAsks(env: Env, name: string, t: Tree)
    requires env.cfuncs == map["Label" := Label(name)] && Shows(env, LABEL_ELEM, t)
    ensures t.c.elem == LABEL_ELEM && AsksO(Some(t), t.id, name)
  {
    var v := NextVal(env, t.c.hooks, [], UseAtom(name));
    assert CallsFrom(env, t.c.hooks, Label(name), LABEL_ELEM, [] + [v]) == [];
    assert t.calls[0] == UseAtom(name);
  }
}
