/** What the attribute stack is for: every shape is drawn with the attributes of the elements around it, from the
    outside in, and then with its own. */
module AttrInheritance {
  import opened AttrStack

  /** The frames that the shapes of an element are drawn with, and the frame that holds behind it. */
  datatype Outcome<A> = Outcome(drawn: seq<A>, after: A)

  /** By the tree alone, where frame `f` holds around the element: the attributes of a group hold for its children and
      those of a shape for itself; those of `svg` and of gradients stay. Inside `defs` only gradients act, and nothing
      is drawn. */
  ghost function Inherited<A>(e: Element<A>, f: A, defs: bool): Outcome<A>
    decreases e, 1
  {
    match e.kind
    case Group =>
      var inner := InheritedAll(e.children, if defs then f else e.effect(f), defs);
      if defs then inner else Outcome(inner.drawn, f)
    case Shape =>
      var inner := InheritedAll(e.children, f, defs);
      if defs then inner else Outcome([e.effect(f)] + inner.drawn, inner.after)
    case Gradient => InheritedAll(e.children, e.effect(f), defs)
    case Svg => InheritedAll(e.children, if defs then f else e.effect(f), defs)
    case Defs => InheritedAll(e.children, f, true)
    case Other => InheritedAll(e.children, f, defs)
  }

  /** One element after the other; whether `defs` is open is counted as the code does. */
  ghost function InheritedAll<A>(es: seq<Element<A>>, f: A, defs: bool): Outcome<A>
    decreases es, 0
  {
    if es == [] then Outcome([], f)
    else
      var first := Inherited(es[0], f, defs);
      var rest := InheritedAll(es[1..], first.after, DefsAfter(es[0], defs));
      Outcome(first.drawn + rest.drawn, rest.after)
  }

  /** The frame that holds for the children. */
  function FrameInside<A>(e: Element<A>, f: A, defs: bool): A {
    if e.kind == Gradient || (!defs && (e.kind == Group || e.kind == Svg)) then e.effect(f) else f
  }

  /** What the opening tag draws. */
  function DrawnFirst<A>(e: Element<A>, f: A, defs: bool): seq<A> {
    if !defs && e.kind == Shape then [e.effect(f)] else []
  }

  lemma InheritedInside<A>(e: Element<A>, f: A, defs: bool)
    ensures var inner := InheritedAll(e.children, FrameInside(e, f, defs), DefsAt(e.kind, defs));
            Inherited(e, f, defs) == Outcome(DrawnFirst(e, f, defs) + inner.drawn,
                                             if !defs && e.kind == Group then f else inner.after)
  {
  }

  lemma OpenedInside<A>(s: State<A>, e: Element<A>)
    requires Sound(s) && Guard(e.kind, |s.frames|, s.defs)
    ensures var inside := Opened(s, e.kind, e.effect);
            && Head(inside) == FrameInside(e, Head(s), s.defs)
            && inside.drawn == s.drawn + DrawnFirst(e, Head(s), s.defs)
  {
  }

  lemma ClosedHead<A>(s: State<A>, kind: Kind)
    requires Sound(s)
    ensures Closed(s, kind).drawn == s.drawn
    ensures kind != Group || |s.frames| == 1 ==> Head(Closed(s, kind)) == Head(s)
  {
  }

  /** For every tree that the stack has room for: its shapes are drawn with the inherited frames, in document order. */
  lemma {:induction false} WalkInherits<A>(s: State<A>, e: Element<A>)
    requires Sound(s) && Fits(e, |s.frames|, s.defs)
    ensures Walk(s, e).drawn == s.drawn + Inherited(e, Head(s), s.defs).drawn
    ensures Head(Walk(s, e)) == Inherited(e, Head(s), s.defs).after
    decreases e, 1
  {
    hide Opened, Closed, Inherited, InheritedAll, FrameInside, DrawnFirst, WalkAll;
    var inside := Opened(s, e.kind, e.effect);
    OpenedState(s, e.kind, e.effect);
    OpenedInside(s, e);
    InheritedInside(e, Head(s), s.defs);
    WalkAllInherits(inside, e.children);
    ScopedAll(inside, e.children);
    ClosedHead(WalkAll(inside, e.children), e.kind);
    Scoped(s, e);
    hide FitsAll, DefsAt;
  }

  lemma {:induction false} WalkAllInherits<A>(s: State<A>, es: seq<Element<A>>)
    requires Sound(s) && FitsAll(es, |s.frames|, s.defs)
    ensures WalkAll(s, es).drawn == s.drawn + InheritedAll(es, Head(s), s.defs).drawn
    ensures Head(WalkAll(s, es)) == InheritedAll(es, Head(s), s.defs).after
    decreases es, 0
  {
    hide Walk, Fits, DefsAfter, Inherited, Head;
    if es != [] {
      WalkInherits(s, es[0]);
      Scoped(s, es[0]);
      WalkDefs(s, es[0]);
      WalkAllInherits(Walk(s, es[0]), es[1..]);
    }
  }

  /** The parser, from its first frame on: whatever document is read, its shapes get the inherited frames. */
  lemma DocumentInherits<A>(e: Element<A>, initial: A)
    requires Fits(e, 1, false)
    ensures Run(State([initial], false, []), Events(e)).drawn == Inherited(e, initial, false).drawn
  {
    var s := State([initial], false, []);
    hide Fits, Walk, Run, Events, Inherited;
    RunIsWalk(s, e);
    WalkInherits(s, e);
  }
}
