/** The attribute stack of the SVG parser: `nsvg__pushAttr`, `nsvg__popAttr`, `nsvg__startElement` and
    `nsvg__endElement` over a stream of tags. A frame is of any type `A`; what the attributes of a tag do to the
    current frame is a function carried by the tag. */
module AttrStack {

  const MAX_ATTR := 128

  /** Grouping, drawn and gradient elements, `svg`, `defs`, and all that are ignored. */
  datatype Kind = Group | Shape | Gradient | Svg | Defs | Other

  datatype Element<!A> = Element(kind: Kind, effect: A -> A, children: seq<Element<A>>)

  datatype Event<!A> = Open(kind: Kind, effect: A -> A) | Close(kind: Kind)

  /** The frames up to the head, never empty, whether the parser is inside `defs`, and the frames that the shapes have
      been drawn with, in document order. */
  datatype State<A> = State(frames: seq<A>, defs: bool, drawn: seq<A>)

  ghost predicate Sound<A>(s: State<A>) {
    1 <= |s.frames| <= MAX_ATTR
  }

  function Push<A>(s: State<A>): State<A>
    requires |s.frames| >= 1
  {
    if |s.frames| < MAX_ATTR then s.(frames := s.frames + [s.frames[|s.frames| - 1]]) else s
  }

  function Pop<A>(s: State<A>): State<A> {
    if |s.frames| > 1 then s.(frames := s.frames[..|s.frames| - 1]) else s
  }

  /** The attributes change the frame at the head. */
  function Change<A>(s: State<A>, effect: A -> A): State<A>
    requires |s.frames| >= 1
  {
    s.(frames := s.frames[|s.frames| - 1 := effect(s.frames[|s.frames| - 1])])
  }

  function Head<A>(s: State<A>): A
    requires |s.frames| >= 1
  {
    s.frames[|s.frames| - 1]
  }

  /** `nsvg__addShape`, as far as attributes go: the shape is drawn with the frame at the head. */
  function Draw<A>(s: State<A>): State<A>
    requires |s.frames| >= 1
  {
    s.(drawn := s.drawn + [Head(s)])
  }

  /** `nsvg__startElement`. */
  function Opened<A>(s: State<A>, kind: Kind, effect: A -> A): (r: State<A>)
    requires Sound(s)
    ensures Sound(r)
  {
    if s.defs then (if kind == Gradient then Change(s, effect) else s)
    else
      match kind
      case Group => Change(Push(s), effect)
      case Shape => Pop(Draw(Change(Push(s), effect)))
      case Gradient => Change(s, effect)
      case Svg => Change(s, effect)
      case Defs => s.(defs := true)
      case Other => s
  }

  /** `nsvg__endElement`. */
  function Closed<A>(s: State<A>, kind: Kind): (r: State<A>)
    requires Sound(s)
    ensures Sound(r)
  {
    match kind
    case Group => Pop(s)
    case Defs => s.(defs := false)
    case _ => s
  }

  /** A whole element. */
  ghost function Walk<A>(s: State<A>, e: Element<A>): (r: State<A>)
    requires Sound(s)
    ensures Sound(r)
    decreases e, 1
  {
    Closed(WalkAll(Opened(s, e.kind, e.effect), e.children), e.kind)
  }

  ghost function WalkAll<A>(s: State<A>, es: seq<Element<A>>): (r: State<A>)
    requires Sound(s)
    ensures Sound(r)
    decreases es, 0
  {
    if es == [] then s else WalkAll(Walk(s, es[0]), es[1..])
  }

  /** Every element, at any depth, leaves the head where it was when the element began. */
  ghost predicate Level<A>(s: State<A>, e: Element<A>)
    requires Sound(s)
    decreases e, 1
  {
    |Walk(s, e).frames| == |s.frames| && LevelAll(Opened(s, e.kind, e.effect), e.children)
  }

  ghost predicate LevelAll<A>(s: State<A>, es: seq<Element<A>>)
    requires Sound(s)
    decreases es, 0
  {
    es == [] || (Level(s, es[0]) && LevelAll(Walk(s, es[0]), es[1..]))
  }

  /** What can be said of an element before it is parsed, given the number of frames and whether it is in `defs`:
      a pushing element needs a free frame, and a group in `defs`, which is not pushed but popped, does no harm
      only at the bottom of the stack. */
  predicate Guard(kind: Kind, n: nat, defs: bool) {
    if defs then kind == Group ==> n == 1 else kind == Group || kind == Shape ==> n < MAX_ATTR
  }

  predicate DefsAt(kind: Kind, defs: bool) {
    defs || kind == Defs
  }

  function DepthIn(kind: Kind, n: nat, defs: bool): nat {
    if !defs && kind == Group then n + 1 else n
  }

  /** Whether the parser still is in `defs` after the element; the end of an inner `defs` already ends it. */
  ghost predicate DefsAfter<A>(e: Element<A>, defs: bool)
    decreases e, 1
  {
    e.kind != Defs && DefsAfterAll(e.children, DefsAt(e.kind, defs))
  }

  ghost predicate DefsAfterAll<A>(es: seq<Element<A>>, defs: bool)
    decreases es, 0
  {
    if es == [] then defs else DefsAfterAll(es[1..], DefsAfter(es[0], defs))
  }

  /** The guards of all elements of a tree, by depth alone. */
  ghost predicate Fits<A>(e: Element<A>, n: nat, defs: bool)
    decreases e, 1
  {
    Guard(e.kind, n, defs) && FitsAll(e.children, DepthIn(e.kind, n, defs), DefsAt(e.kind, defs))
  }

  ghost predicate FitsAll<A>(es: seq<Element<A>>, n: nat, defs: bool)
    decreases es, 0
  {
    es == [] || (Fits(es[0], n, defs) && FitsAll(es[1..], n, DefsAfter(es[0], defs)))
  }

  lemma {:induction false} WalkDefs<A>(s: State<A>, e: Element<A>)
    requires Sound(s)
    ensures Walk(s, e).defs <==> DefsAfter(e, s.defs)
    decreases e, 1
  {
    hide Change, Push, Pop;
    OpenedState(s, e.kind, e.effect);
    WalkAllDefs(Opened(s, e.kind, e.effect), e.children);
    ClosedState(WalkAll(Opened(s, e.kind, e.effect), e.children), e.kind);
    hide Opened, Closed;
  }

  lemma {:induction false} WalkAllDefs<A>(s: State<A>, es: seq<Element<A>>)
    requires Sound(s)
    ensures WalkAll(s, es).defs <==> DefsAfterAll(es, s.defs)
    decreases es, 0
  {
    hide Walk, DefsAfter;
    if es != [] {
      WalkDefs(s, es[0]);
      WalkAllDefs(Walk(s, es[0]), es[1..]);
    }
  }

  /** What opening does to the depth: right under the guard, and one frame too few for a shape without room. */
  lemma OpenedState<A>(s: State<A>, kind: Kind, effect: A -> A)
    requires Sound(s)
    ensures Opened(s, kind, effect).defs <==> DefsAt(kind, s.defs)
    ensures Guard(kind, |s.frames|, s.defs) ==>
              |Opened(s, kind, effect).frames| == DepthIn(kind, |s.frames|, s.defs)
    ensures !s.defs && kind == Group && |s.frames| == MAX_ATTR ==> |Opened(s, kind, effect).frames| == MAX_ATTR
    ensures !s.defs && kind == Shape && |s.frames| == MAX_ATTR ==> |Opened(s, kind, effect).frames| == MAX_ATTR - 1
    ensures s.defs ==> |Opened(s, kind, effect).frames| == |s.frames|
  {
  }

  lemma ClosedState<A>(s: State<A>, kind: Kind)
    requires Sound(s)
    ensures Closed(s, kind).defs <==> kind != Defs && s.defs
    ensures |Closed(s, kind).frames| == if kind == Group && |s.frames| > 1 then |s.frames| - 1 else |s.frames|
  {
  }

  /** Exactly then is every element level. */
  lemma {:induction false} LevelIff<A>(s: State<A>, e: Element<A>)
    requires Sound(s)
    ensures Level(s, e) <==> Fits(e, |s.frames|, s.defs)
    decreases e, 1
  {
    hide Change, Push, Pop;
    var inside := Opened(s, e.kind, e.effect);
    OpenedState(s, e.kind, e.effect);
    LevelAllIff(inside, e.children);
    ClosedState(WalkAll(inside, e.children), e.kind);
    if LevelAll(inside, e.children) {
      LevelLength(inside, e.children);
    }
    hide Opened, Closed, LevelAll, FitsAll, WalkAll;
    assert |Walk(s, e).frames| == |Closed(WalkAll(inside, e.children), e.kind).frames|;
  }

  lemma {:induction false} LevelAllIff<A>(s: State<A>, es: seq<Element<A>>)
    requires Sound(s)
    ensures LevelAll(s, es) <==> FitsAll(es, |s.frames|, s.defs)
    decreases es, 0
  {
    hide Walk, Level, Fits, DefsAfter;
    if es != [] {
      LevelIff(s, es[0]);
      WalkDefs(s, es[0]);
      if Level(s, es[0]) {
        LevelOne(s, es[0]);
        LevelAllIff(Walk(s, es[0]), es[1..]);
      }
    }
  }

  lemma LevelOne<A>(s: State<A>, e: Element<A>)
    requires Sound(s) && Level(s, e)
    ensures |Walk(s, e).frames| == |s.frames|
  {
    hide Walk;
  }

  lemma {:induction false} LevelLength<A>(s: State<A>, es: seq<Element<A>>)
    requires Sound(s) && LevelAll(s, es)
    ensures |WalkAll(s, es).frames| == |s.frames|
    decreases |es|
  {
    hide Walk, Level;
    if es != [] {
      LevelOne(s, es[0]);
      LevelLength(Walk(s, es[0]), es[1..]);
    }
  }

  /** The frames below the head. */
  function Below<A>(s: State<A>): seq<A>
    requires |s.frames| >= 1
  {
    s.frames[..|s.frames| - 1]
  }

  lemma OpenedBelow<A>(s: State<A>, kind: Kind, effect: A -> A)
    requires Sound(s) && Guard(kind, |s.frames|, s.defs)
    ensures if !s.defs && kind == Group then Below(Opened(s, kind, effect)) == s.frames
            else Below(Opened(s, kind, effect)) == Below(s)
  {
  }

  lemma ClosedBelow<A>(s: State<A>, was: State<A>, kind: Kind)
    requires Sound(s) && Sound(was)
    requires if !was.defs && kind == Group then |s.frames| == |was.frames| + 1 && Below(s) == was.frames
             else |s.frames| == |was.frames| && Below(s) == Below(was)
    requires kind == Group && was.defs ==> |was.frames| == 1
    ensures Below(Closed(s, kind)) == Below(was) && |Closed(s, kind).frames| == |was.frames|
    ensures !was.defs && kind == Group ==> Closed(s, kind).frames == was.frames
  {
  }

  /** Scoping: where the guards hold, an element changes no frame below the head, and a group outside `defs` also
      leaves the head frame as it was. */
  lemma {:induction false} Scoped<A>(s: State<A>, e: Element<A>)
    requires Sound(s) && Fits(e, |s.frames|, s.defs)
    ensures |Walk(s, e).frames| == |s.frames| && Below(Walk(s, e)) == Below(s)
    ensures e.kind == Group && !s.defs ==> Walk(s, e).frames == s.frames
    decreases e, 1
  {
    var inside := Opened(s, e.kind, e.effect);
    OpenedState(s, e.kind, e.effect);
    OpenedBelow(s, e.kind, e.effect);
    hide Below, Opened, Closed;
    ScopedAll(inside, e.children);
    ClosedBelow(WalkAll(inside, e.children), s, e.kind);
  }

  lemma {:induction false} ScopedAll<A>(s: State<A>, es: seq<Element<A>>)
    requires Sound(s) && FitsAll(es, |s.frames|, s.defs)
    ensures |WalkAll(s, es).frames| == |s.frames| && Below(WalkAll(s, es)) == Below(s)
    decreases es, 0
  {
    hide Walk, Fits, DefsAfter, Below;
    if es != [] {
      Scoped(s, es[0]);
      WalkDefs(s, es[0]);
      ScopedAll(Walk(s, es[0]), es[1..]);
    }
  }

  /** Groups nested `k` deep. */
  function Nest<A>(k: nat, effect: A -> A): Element<A>
    requires k >= 1
  {
    Element(Group, effect, if k == 1 then [] else [Nest(k - 1, effect)])
  }

  /** The stack holds 127 nested groups; with one more the head is off afterwards. */
  lemma {:induction false} NestFitsIff<A>(k: nat, effect: A -> A, n: nat)
    requires k >= 1 && n >= 1
    ensures Fits(Nest(k, effect), n, false) <==> k + n <= MAX_ATTR
    decreases k
  {
    if k > 1 {
      NestFitsIff(k - 1, effect, n + 1);
      FitsOne(Nest(k - 1, effect), n + 1, false);
    }
  }

  lemma FitsOne<A>(e: Element<A>, n: nat, defs: bool)
    ensures FitsAll([e], n, defs) <==> Fits(e, n, defs)
  {
    hide Fits;
    assert [e][1..] == [];
  }

  lemma TooDeep<A>(s: State<A>, effect: A -> A)
    requires Sound(s) && |s.frames| == MAX_ATTR && !s.defs
    ensures |Walk(s, Nest(1, effect)).frames| == MAX_ATTR - 1
  {
    var e := Nest(1, effect);
    OpenedState(s, Group, effect);
    assert Walk(s, e) == Closed(Opened(s, Group, effect), Group);
  }

  /** A group inside `defs` inside a group: its end pops the frame of the outer group. */
  lemma GroupInDefs<A>(f: A, effect: A -> A)
    ensures var inner := Element(Defs, effect, [Nest(1, effect)]);
            && !Fits(inner, 2, false)
            && |Walk(State([f, f], false, []), inner).frames| == 1
  {
    var s, inner := State([f, f], false, []), Element(Defs, effect, [Nest(1, effect)]);
    FitsOne(Nest(1, effect), 2, true);
    var inside := Opened(s, Defs, effect);
    assert inside == State([f, f], true, []);
    WalkOne(inside, Nest(1, effect));
    assert Walk(inside, Nest(1, effect)) == Closed(Opened(inside, Group, effect), Group);
  }

  lemma WalkOne<A>(s: State<A>, e: Element<A>)
    requires Sound(s)
    ensures WalkAll(s, [e]) == Walk(s, e)
  {
    hide Walk;
    assert [e][1..] == [];
  }

  /** The tags of an element in document order: a well-nested stream. */
  function Events<A>(e: Element<A>): seq<Event<A>>
    decreases e, 1
  {
    [Open(e.kind, e.effect)] + AllEvents(e.children) + [Close(e.kind)]
  }

  function AllEvents<A>(es: seq<Element<A>>): seq<Event<A>>
    decreases es, 0
  {
    if es == [] then [] else Events(es[0]) + AllEvents(es[1..])
  }

  ghost function Handle<A>(s: State<A>, v: Event<A>): (r: State<A>)
    requires Sound(s)
    ensures Sound(r)
  {
    match v
    case Open(kind, effect) => Opened(s, kind, effect)
    case Close(kind) => Closed(s, kind)
  }

  ghost function Run<A>(s: State<A>, events: seq<Event<A>>): (r: State<A>)
    requires Sound(s)
    ensures Sound(r)
  {
    if events == [] then s else Handle(Run(s, events[..|events| - 1]), events[|events| - 1])
  }

  lemma {:induction false} RunConcat<A>(s: State<A>, a: seq<Event<A>>, b: seq<Event<A>>)
    requires Sound(s)
    ensures Run(s, a + b) == Run(Run(s, a), b)
    decreases |b|
  {
    hide Handle;
    if b == [] {
      assert a + b == a;
    } else {
      assert (a + b)[..|a + b| - 1] == a + b[..|b| - 1];
      RunConcat(s, a, b[..|b| - 1]);
    }
  }

  lemma RunOne<A>(s: State<A>, v: Event<A>)
    requires Sound(s)
    ensures Run(s, [v]) == Handle(s, v)
  {
    hide Handle;
    assert [v][..0] == [];
  }

  /** Running the stream of a tree is walking the tree. */
  lemma {:induction false} RunIsWalk<A>(s: State<A>, e: Element<A>)
    requires Sound(s)
    ensures Run(s, Events(e)) == Walk(s, e)
    decreases e, 1
  {
    hide Opened, Closed, Run;
    var open, close := [Open(e.kind, e.effect)], [Close(e.kind)];
    RunConcat(s, open + AllEvents(e.children), close);
    RunConcat(s, open, AllEvents(e.children));
    RunOne(s, Open(e.kind, e.effect));
    RunAllIsWalk(Opened(s, e.kind, e.effect), e.children);
    RunOne(WalkAll(Opened(s, e.kind, e.effect), e.children), Close(e.kind));
  }

  lemma {:induction false} RunAllIsWalk<A>(s: State<A>, es: seq<Element<A>>)
    requires Sound(s)
    ensures Run(s, AllEvents(es)) == WalkAll(s, es)
    decreases es, 0
  {
    hide Walk, Events;
    if es != [] {
      RunIsWalk(s, es[0]);
      RunAllIsWalk(Walk(s, es[0]), es[1..]);
      RunConcat(s, Events(es[0]), AllEvents(es[1..]));
    }
  }

  /** The stack of the parser: `attr`, `attrHead` and `defsFlag`. */
  class AttrParser<!A> {
    const attr: array<A>
    var attrHead: nat
    var defsFlag: bool
    var shapes: seq<A>

    ghost predicate Valid()
      reads this
    {
      attr.Length == MAX_ATTR && attrHead < MAX_ATTR
    }

    ghost function Current(): State<A>
      reads this, attr
      requires Valid()
    {
      State(attr[..attrHead + 1], defsFlag, shapes)
    }

    constructor (initial: A)
      ensures Valid() && Current() == State([initial], false, []) && fresh(attr)
    {
      attr := new A[MAX_ATTR](_ => initial);
      attrHead, defsFlag, shapes := 0, false, [];
    }

    /** `nsvg__pushAttr`. */
    method PushAttr()
      requires Valid()
      modifies this`attrHead, attr
      ensures Valid() && Current() == Push(old(Current()))
    {
      if attrHead < MAX_ATTR - 1 {
        ghost var frames := attr[..attrHead + 1];
        attrHead := attrHead + 1;
        attr[attrHead] := attr[attrHead - 1];
        assert attr[..attrHead + 1] == frames + [frames[|frames| - 1]];
      }
    }

    /** `nsvg__popAttr`. */
    method PopAttr()
      requires Valid()
      modifies this`attrHead
      ensures Valid() && Current() == Pop(old(Current()))
    {
      if attrHead > 0 {
        attrHead := attrHead - 1;
      }
    }

    /** The attributes of a tag, applied to the frame that `nsvg__getAttr` gives. */
    method ParseAttribs(effect: A -> A)
      requires Valid()
      modifies attr
      ensures Valid() && Current() == Change(old(Current()), effect)
    {
      attr[attrHead] := effect(attr[attrHead]);
    }

    /** `nsvg__addShape`. */
    method AddShape()
      requires Valid()
      modifies this`shapes
      ensures Valid() && Current() == Draw(old(Current()))
    {
      shapes := shapes + [attr[attrHead]];
    }

    /** `nsvg__startElement`. */
    method StartElement(kind: Kind, effect: A -> A)
      requires Valid()
      modifies this`attrHead, this`defsFlag, this`shapes, attr
      ensures Valid() && Current() == Opened(old(Current()), kind, effect)
    {
      hide Push, Pop, Change, Draw;
      if defsFlag {
        if kind == Gradient {
          ParseAttribs(effect);
        }
        return;
      }
      match kind
      case Group =>
        PushAttr();
        ParseAttribs(effect);
      case Shape =>
        PushAttr();
        ParseAttribs(effect);
        AddShape();
        PopAttr();
      case Gradient => ParseAttribs(effect);
      case Svg => ParseAttribs(effect);
      case Defs => defsFlag := true;
      case Other =>
    }

    /** `nsvg__endElement`. */
    method EndElement(kind: Kind)
      requires Valid()
      modifies this`attrHead, this`defsFlag
      ensures Valid() && Current() == Closed(old(Current()), kind)
    {
      if kind == Group {
        PopAttr();
      } else if kind == Defs {
        defsFlag := false;
      }
    }

    /** `nsvg__parseXML` calling back for each tag. Whatever the stream, the head stays within the array. */
    method ParseEvents(events: seq<Event<A>>)
      requires Valid()
      modifies this`attrHead, this`defsFlag, this`shapes, attr
      ensures Valid() && Current() == Run(old(Current()), events)
    {
      hide Opened, Closed;
      var k := 0;
      while k < |events|
        invariant 0 <= k <= |events| && Valid() && Current() == Run(old(Current()), events[..k])
      {
        match events[k] {
          case Open(kind, effect) => StartElement(kind, effect);
          case Close(kind) => EndElement(kind);
        }
        assert events[..k + 1][..k] == events[..k];
        k := k + 1;
      }
      assert events[..k] == events;
    }
  }
}
