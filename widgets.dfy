/**
 * The widgets of the page: `Vector2` (mutable, as the containers write
 * through it), the interactive `TextBox` with its hover/press/release
 * colour transitions, the layout containers `Control`, `VBoxContainer` and
 * `HBoxContainer`, and the scene tree that input dispatch walks.
 */
module Widgets {
  import opened Colour
  import opened Layout
  import opened Wrappers

  /** A point or an extent; containers overwrite its coordinates in place. */
  class Vector2 {
    var x: real
    var y: real

    constructor (x: real, y: real)
      ensures this.x == x && this.y == y
    {
      this.x, this.y := x, y;
    }
  }

  /** Brightening on hover (`isEntered`) and darkening on exit (`isExited`). */
  const HoverStep: nat := 50
  /** Darkening on press (`isPressed`) and brightening on a toggled release (`isReleased`). */
  const PressStep: nat := 25
  /** Which per-instance `onClick`/`onSetToggled` pair a box was given by the page set-up. */
  datatype Role =
    | Plain                 // the default no-op hooks (credit text lines)
    | ReadingTab            // topBar.children[0]
    | GameTab               // topBar.children[1]
    | CreditsHeader         // the first child of the credits column
    | Link                  // the three source links
    | Choice(letter: char)  // the answer buttons A to D
    | Drop                  // the "Drop!" button

  class TextBox {
    const position: Vector2
    const size: Vector2
    const role: Role
    var text: string
    /** The channels of the `#rrggbb` string the source keeps; `BodyColor` writes it out. */
    var bodyColor: Rgb
    var visible: bool
    var toggled: bool
    var entered: bool

    /** The source's `bodyColor` string: always a canonical code, and it reads back as the triple. */
    function BodyColor(): (code: string)
      reads this
      ensures IsColourCode(code) && HexToRgb(code) == Some(bodyColor)
    {
      HexToRgbOfRgbToHex(bodyColor);
      RgbToHex(bodyColor)
    }

    constructor (position: Vector2, size: Vector2, text: string, role: Role)
      ensures this.position == position && this.size == size
      ensures this.text == text && this.role == role
      ensures bodyColor == Black && visible && !toggled && !entered
    {
      this.position, this.size := position, size;
      this.text, this.role := text, role;
      bodyColor, visible, toggled, entered := Black, true, false, false;
    }

    /** `containsPoint`: the box with all four edges included; a box of negative width or height contains no point. */
    predicate ContainsPoint(px: real, py: real)
      reads position`x, position`y, size`x, size`y
      ensures ContainsPoint(px, py) ==> 0.0 <= size.x && 0.0 <= size.y
    {
      px >= position.x && px <= position.x + size.x && py >= position.y && py <= position.y + size.y
    }

    /** `isEntered`: a visible box becomes hovered and 50 brighter on every channel (saturating at 255). */
    method IsEntered()
      modifies this`entered, this`bodyColor
      ensures old(visible) ==> entered && bodyColor == Lighten(old(bodyColor), HoverStep)
      ensures !old(visible) ==> entered == old(entered) && bodyColor == old(bodyColor)
    {
      if !visible {
        return;
      }
      entered := true;
      bodyColor := Lighten(bodyColor, HoverStep);
    }

    /** `isExited`: a visible box stops being hovered and turns 50 darker on every channel (saturating at 0). */
    method IsExited()
      modifies this`entered, this`bodyColor
      ensures old(visible) ==> !entered && bodyColor == Darken(old(bodyColor), HoverStep)
      ensures !old(visible) ==> entered == old(entered) && bodyColor == old(bodyColor)
    {
      if !visible {
        return;
      }
      entered := false;
      bodyColor := Darken(bodyColor, HoverStep);
    }

    /** The part of `isClicked` on a visible box before its hooks run: the toggle flips, the box is painted `#66ff66` when now on and black when now off, and `isEntered` lightens that. */
    method FlipAndHover()
      requires visible
      modifies this`toggled, this`bodyColor, this`entered
      ensures toggled == !old(toggled) && entered
      ensures bodyColor == Lighten(if toggled then ToggledOn else Black, HoverStep)
    {
      if toggled {
        toggled := false;
        bodyColor := Black;
      } else {
        toggled := true;
        bodyColor := ToggledOn;
      }
      IsEntered();
    }

    method IsPressed()
      modifies this`bodyColor
      ensures bodyColor == if old(visible) then Darken(old(bodyColor), PressStep) else old(bodyColor)
    {
      if !visible {
        return;
      }
      bodyColor := Darken(bodyColor, PressStep);
    }

    /** `isReleased`: a visible toggled box turns 25 brighter, an untoggled one goes back to black. */
    method IsReleased()
      modifies this`bodyColor
      ensures bodyColor == if !old(visible) then old(bodyColor) else if toggled then Lighten(old(bodyColor), PressStep) else Black
    {
      if !visible {
        return;
      }
      if toggled {
        bodyColor := Lighten(bodyColor, PressStep);
      } else {
        bodyColor := Black;
      }
    }
  }

  /** The hover edge is inclusive: the corners of a box lie inside it, points just past an edge do not. */
  lemma EdgesInclusive(b: TextBox, e: real)
    requires 0.0 <= b.size.x && 0.0 <= b.size.y && 0.0 < e
    ensures b.ContainsPoint(b.position.x, b.position.y)
    ensures b.ContainsPoint(b.position.x + b.size.x, b.position.y + b.size.y)
    ensures !b.ContainsPoint(b.position.x - e, b.position.y)
    ensures !b.ContainsPoint(b.position.x + b.size.x + e, b.position.y)
    ensures !b.ContainsPoint(b.position.x, b.position.y - e)
    ensures !b.ContainsPoint(b.position.x, b.position.y + b.size.y + e)
  {
  }

  /** A plain `Control`, a `VBoxContainer` or an `HBoxContainer`. */
  datatype Arrangement = Free | Vertical | Horizontal

  /**
   * The scene graph. Its shape is fixed once the page is set up, so it is
   * a tree value whose nodes refer to the widget objects: a `TextBox` and
   * its children, a container and its children, or an item that input
   * dispatch skips (`TextItem`, `Ball`).
   */
  datatype Node =
    | Box(box: TextBox, kids: seq<Node>)
    | Group(ctrl: Control, kids: seq<Node>)
    | Inert

  function PositionOf(n: Node): Vector2
    requires !n.Inert?
  {
    if n.Box? then n.box.position else n.ctrl.position
  }

  function SizeOf(n: Node): Vector2
    requires !n.Inert?
  {
    if n.Box? then n.box.size else n.ctrl.size
  }

  /** The position and size objects of the laid-out children. */
  function Frames(ns: seq<Node>): set<Vector2> {
    (set n | n in ns && !n.Inert? :: PositionOf(n)) + (set n | n in ns && !n.Inert? :: SizeOf(n))
  }

  /** Every laid-out child has its own position and size objects, shared with no one else and not the container's. */
  ghost predicate Separate(ns: seq<Node>, position: Vector2, size: Vector2) {
    && (forall n :: n in ns && !n.Inert? ==>
          PositionOf(n) != SizeOf(n) && PositionOf(n) !in {position, size} && SizeOf(n) !in {position, size})
    && (forall i, j :: 0 <= i < |ns| && 0 <= j < |ns| && i != j && !ns[i].Inert? && !ns[j].Inert? ==>
          PositionOf(ns[i]) != PositionOf(ns[j]) && PositionOf(ns[i]) != SizeOf(ns[j]) && SizeOf(ns[i]) != SizeOf(ns[j]))
  }

  /** Only a box's visibility differs from the previous state. */
  twostate predicate UnchangedButVisibility(b: TextBox)
    reads b
  {
    b.text == old(b.text) && b.bodyColor == old(b.bodyColor) && b.toggled == old(b.toggled) && b.entered == old(b.entered)
  }

  /** What `Control.draw` does to a `TextBox` child. */
  method ShowBox(b: TextBox, v: bool, x: real, y: real)
    modifies b, b.position
    ensures b.visible == v && b.position.x == x && b.position.y == y
    ensures UnchangedButVisibility(b)
  {
    b.visible := v;
    b.position.x := x;
    b.position.y := y;
  }

  /** What `Control.draw` does to a container child. */
  method ShowGroup(c: Control, v: bool, x: real, y: real)
    modifies c, c.position
    ensures c.visible == v && c.position.x == x && c.position.y == y
  {
    c.visible := v;
    c.position.x := x;
    c.position.y := y;
  }

  /** What `VBoxContainer.draw` does to one child: both coordinates of its position and of its size. */
  method PlaceRow(p: Vector2, s: Vector2, x: real, y: real, w: real, h: real)
    requires p != s
    modifies p, s
    ensures p.x == x && p.y == y && s.x == w && s.y == h
  {
    p.y := y;
    p.x := x;
    s.y := h;
    s.x := w;
  }

  /** What `HBoxContainer.draw` does to one child: its position and its width; the height stays. */
  method PlaceColumn(p: Vector2, s: Vector2, x: real, y: real, w: real)
    requires p != s
    modifies p, s
    ensures p.x == x && p.y == y && s.x == w && s.y == old(s.y)
  {
    p.x := x;
    p.y := y;
    s.x := w;
  }

  class Control {
    const position: Vector2
    const size: Vector2
    const arrangement: Arrangement
    var visible: bool

    constructor (position: Vector2, size: Vector2, arrangement: Arrangement)
      ensures this.position == position && this.size == size && this.arrangement == arrangement && visible
    {
      this.position, this.size, this.arrangement := position, size, arrangement;
      visible := true;
    }

    /** `Control.draw`: every child takes the container's visibility and origin; sizes and everything else stay. */
    method DrawFree(children: seq<Node>)
      modifies set n | n in children && n.Box? :: n.box
      modifies set n | n in children && n.Group? :: n.ctrl
      modifies set n | n in children && !n.Inert? :: PositionOf(n)
      ensures visible == old(visible) && position.x == old(position.x) && position.y == old(position.y)
      ensures forall k :: 0 <= k < |children| && children[k].Box? ==>
        children[k].box.visible == visible && UnchangedButVisibility(children[k].box)
      ensures forall k :: 0 <= k < |children| && children[k].Group? ==> children[k].ctrl.visible == visible
      ensures forall k :: 0 <= k < |children| && !children[k].Inert? ==>
        PositionOf(children[k]).x == position.x && PositionOf(children[k]).y == position.y
    {
      var v, x, y := visible, position.x, position.y;
      for i := 0 to |children|
        invariant visible == v && position.x == x && position.y == y
        invariant forall k :: 0 <= k < i && children[k].Box? ==> children[k].box.visible == v
        invariant forall k :: 0 <= k < |children| && children[k].Box? ==> UnchangedButVisibility(children[k].box)
        invariant forall k :: 0 <= k < i && children[k].Group? ==> children[k].ctrl.visible == v
        invariant forall k :: 0 <= k < i && !children[k].Inert? ==>
          PositionOf(children[k]).x == x && PositionOf(children[k]).y == y
      {
        match children[i] {
          case Box(b, _) => ShowBox(b, v, x, y);
          case Group(c, _) => ShowGroup(c, v, x, y);
          case Inert =>
        }
      }
    }

    /** The state `VBoxContainer.draw` leaves: child `i` in the `i`-th horizontal band, as wide as the container. */
    ghost predicate PlacedVertically(children: seq<Node>)
      requires |children| > 0
      reads position, size, Frames(children)
    {
      forall i :: 0 <= i < |children| && !children[i].Inert? ==>
        && PositionOf(children[i]).x == position.x
        && PositionOf(children[i]).y == position.y + SlotStart(size.y, |children|, i)
        && SizeOf(children[i]).x == size.x
        && SizeOf(children[i]).y == SlotLength(size.y, |children|, i)
    }

    /** `VBoxContainer.draw`: equal bands with a one-unit gap under every child but the last. */
    method DrawVertical(children: seq<Node>)
      requires Separate(children, position, size)
      modifies Frames(children)
      ensures |children| > 0 ==> PlacedVertically(children)
    {
      var n := |children|;
      var i := 0;
      while i < n
        invariant 0 <= i <= n
        invariant forall k :: 0 <= k < i && !children[k].Inert? ==>
          && PositionOf(children[k]).x == position.x
          && PositionOf(children[k]).y == position.y + SlotStart(size.y, n, k)
          && SizeOf(children[k]).x == size.x
          && SizeOf(children[k]).y == SlotLength(size.y, n, k)
      {
        if !children[i].Inert? {
          PlaceRow(PositionOf(children[i]), SizeOf(children[i]),
            position.x, position.y + SlotStart(size.y, n, i), size.x, SlotLength(size.y, n, i));
        }
        i := i + 1;
      }
    }

    /** The state `HBoxContainer.draw` leaves: child `i` in the `i`-th vertical band, at the container's top. */
    ghost predicate PlacedHorizontally(children: seq<Node>)
      requires |children| > 0
      reads position, size, Frames(children)
    {
      forall i :: 0 <= i < |children| && !children[i].Inert? ==>
        && PositionOf(children[i]).x == position.x + SlotStart(size.x, |children|, i)
        && PositionOf(children[i]).y == position.y
        && SizeOf(children[i]).x == SlotLength(size.x, |children|, i)
    }

    /** `HBoxContainer.draw`: equal columns with a one-unit gap after every child but the last; heights stay. */
    method DrawHorizontal(children: seq<Node>)
      requires Separate(children, position, size)
      modifies Frames(children)
      ensures |children| > 0 ==> PlacedHorizontally(children)
      ensures forall k :: 0 <= k < |children| && !children[k].Inert? ==>
        SizeOf(children[k]).y == old(SizeOf(children[k]).y)
    {
      var n := |children|;
      var i := 0;
      while i < n
        invariant 0 <= i <= n
        invariant forall k :: 0 <= k < i && !children[k].Inert? ==>
          && PositionOf(children[k]).x == position.x + SlotStart(size.x, n, k)
          && PositionOf(children[k]).y == position.y
          && SizeOf(children[k]).x == SlotLength(size.x, n, k)
        invariant forall k :: 0 <= k < n && !children[k].Inert? ==> SizeOf(children[k]).y == old(SizeOf(children[k]).y)
      {
        if !children[i].Inert? {
          PlaceColumn(PositionOf(children[i]), SizeOf(children[i]),
            position.x + SlotStart(size.x, n, i), position.y, SlotLength(size.x, n, i));
        }
        i := i + 1;
      }
    }
  }

  /** The boxes of a forest in the order input dispatch visits them (depth first, a box before its children). */
  function Flatten(ns: seq<Node>): seq<TextBox> {
    if ns == [] then []
    else match ns[0]
      case Box(b, kids) => [b] + Flatten(kids) + Flatten(ns[1..])
      case Group(_, kids) => Flatten(kids) + Flatten(ns[1..])
      case Inert => Flatten(ns[1..])
  }

  lemma {:induction false} FlattenAppend(a: seq<Node>, b: seq<Node>)
    ensures Flatten(a + b) == Flatten(a) + Flatten(b)
  {
    if a == [] {
      assert a + b == b;
    } else {
      assert (a + b)[0] == a[0] && (a + b)[1..] == a[1..] + b;
      FlattenAppend(a[1..], b);
    }
  }

  /** A one-node forest flattens to the node's own box, if any, followed by its children's. */
  lemma FlattenSingle(n: Node)
    ensures Flatten([n]) == match n
      case Box(b, kids) => [b] + Flatten(kids)
      case Group(_, kids) => Flatten(kids)
      case Inert => []
  {
    assert [n][1..] == [];
  }

  /** The boxes of `bs` under the pointer, in order: exactly the ones `storePressed` records. */
  function UnderPointer(bs: seq<TextBox>, px: real, py: real): (r: seq<TextBox>)
    reads set b | b in bs :: b.position, set b | b in bs :: b.size
    ensures forall b :: b in r ==> b in bs && b.ContainsPoint(px, py)
    ensures forall b :: b in bs && b.ContainsPoint(px, py) ==> b in r
    ensures |r| <= |bs|
  {
    if bs == [] then []
    else (if bs[0].ContainsPoint(px, py) then [bs[0]] else []) + UnderPointer(bs[1..], px, py)
  }

  lemma {:induction false} UnderPointerAppend(a: seq<TextBox>, b: seq<TextBox>, px: real, py: real)
    ensures UnderPointer(a + b, px, py) == UnderPointer(a, px, py) + UnderPointer(b, px, py)
  {
    if a == [] {
      assert a + b == b;
    } else {
      assert (a + b)[0] == a[0] && (a + b)[1..] == a[1..] + b;
      UnderPointerAppend(a[1..], b, px, py);
    }
  }

  predicate Distinct<T(==)>(s: seq<T>) {
    forall i, j :: 0 <= i < j < |s| ==> s[i] != s[j]
  }

  /** The two halves of a repetition-free sequence are repetition-free and share nothing. */
  lemma DistinctSplit<T>(a: seq<T>, b: seq<T>)
    requires Distinct(a + b)
    ensures Distinct(a) && Distinct(b)
    ensures forall x :: x in a ==> x !in b
  {
    forall x | x in a
      ensures x !in b
    {
      var i :| 0 <= i < |a| && a[i] == x;
      forall j | 0 <= j < |b|
        ensures b[j] != x
      {
        assert (a + b)[i] == a[i] && (a + b)[|a| + j] == b[j];
      }
    }
    forall i, j | 0 <= i < j < |b|
      ensures b[i] != b[j]
    {
      assert (a + b)[|a| + i] == b[i] && (a + b)[|a| + j] == b[j];
    }
    forall i, j | 0 <= i < j < |a|
      ensures a[i] != a[j]
    {
      assert (a + b)[i] == a[i] && (a + b)[j] == a[j];
    }
  }

  /** The effect of one step of `handleHovered` on a box: the enter edge when the pointer has arrived, the exit edge when it has left, nothing otherwise. */
  twostate predicate Hovered(b: TextBox, px: real, py: real)
    reads b, b.position, b.size
  {
    if old(b.visible) && !old(b.entered) && old(b.ContainsPoint(px, py)) then
      b.entered && b.bodyColor == Lighten(old(b.bodyColor), HoverStep)
    else if old(b.visible) && old(b.entered) && !old(b.ContainsPoint(px, py)) then
      !b.entered && b.bodyColor == Darken(old(b.bodyColor), HoverStep)
    else
         b.entered == old(b.entered) && b.bodyColor == old(b.bodyColor)
  }

  /** Hovering changes neither the text, the visibility nor the toggle of a box. */
  twostate predicate KeptByHover(b: TextBox)
    reads b
  {
    b.text == old(b.text) && b.visible == old(b.visible) && b.toggled == old(b.toggled)
  }

  method HoverBox(b: TextBox, px: real, py: real)
    modifies b`entered, b`bodyColor
    ensures Hovered(b, px, py) && KeptByHover(b)
  {
    if !b.entered && b.ContainsPoint(px, py) {
      b.IsEntered();
      return;
    }
    if b.entered && !b.ContainsPoint(px, py) {
      b.IsExited();
      return;
    }
  }

  /** Every box of a forest is an allocated object. */
  lemma FlattenAllocated(ns: seq<Node>)
    ensures forall b :: b in Flatten(ns) ==> allocated(b)
  {
    if ns != [] {
      FlattenAllocated(ns[1..]);
      match ns[0] {
        case Box(_, kids) => FlattenAllocated(kids);
        case Group(_, kids) => FlattenAllocated(kids);
        case Inert =>
      }
    }
  }

  /** A forest's boxes split around a position, in order. */
  lemma FlattenSplit(ns: seq<Node>, i: nat)
    requires i <= |ns|
    ensures Flatten(ns) == Flatten(ns[..i]) + Flatten(ns[i..])
  {
    assert ns == ns[..i] + ns[i..];
    FlattenAppend(ns[..i], ns[i..]);
  }

  /** Extending a prefix of the forest by one node appends that node's boxes. */
  lemma FlattenSnoc(ns: seq<Node>, i: nat)
    requires i < |ns|
    ensures Flatten(ns[..i + 1]) == Flatten(ns[..i]) + Flatten([ns[i]])
  {
    assert ns[..i + 1] == ns[..i] + [ns[i]];
    FlattenAppend(ns[..i], [ns[i]]);
  }

  /**
   * `handleHovered`: a depth-first walk that steps every box of the forest
   * once (containers are walked through, other items skipped). Afterwards
   * every visible box is hovered exactly when it contains the pointer.
   */
  method HandleHovered(ns: seq<Node>, px: real, py: real)
    requires Distinct(Flatten(ns))
    modifies (set b | b in Flatten(ns))`entered, (set b | b in Flatten(ns))`bodyColor
    ensures forall b :: b in Flatten(ns) ==> Hovered(b, px, py) && KeptByHover(b)
    ensures forall b :: b in Flatten(ns) && b.visible ==> b.entered == old(b.ContainsPoint(px, py))
    decreases ns
  {
    FlattenAllocated(ns);
    for i := 0 to |ns|
      invariant forall b :: b in Flatten(ns) ==> old(allocated(b))
      invariant forall b :: b in Flatten(ns[..i]) ==> b in Flatten(ns)
      invariant forall b :: b in Flatten(ns[..i]) ==> Hovered(b, px, py) && KeptByHover(b)
      invariant forall b :: b in Flatten(ns) && b !in Flatten(ns[..i]) ==> unchanged(b)
    {
      FlattenSplit(ns, i + 1);
      FlattenSnoc(ns, i);
      DistinctSplit(Flatten(ns[..i + 1]), Flatten(ns[i + 1..]));
      DistinctSplit(Flatten(ns[..i]), Flatten([ns[i]]));
      assert forall b :: b in Flatten([ns[i]]) ==> b in Flatten(ns);
      label Before:
      HoverNode(ns[i], px, py);
      forall b | b in Flatten([ns[i]])
        ensures Hovered(b, px, py) && KeptByHover(b)
      {
        assert b in Flatten(ns) && b !in Flatten(ns[..i]);
        assert old@Before(b.ContainsPoint(px, py)) == old(b.ContainsPoint(px, py));
        assert Hovered@Before(b, px, py) && KeptByHover@Before(b);
      }
      forall b | b in Flatten(ns[..i])
        ensures Hovered(b, px, py) && KeptByHover(b)
      {
        assert b !in Flatten([ns[i]]);
        assert unchanged@Before(b);
      }
    }
    assert ns[..|ns|] == ns;
  }

  /** One item of the walk: a box is stepped and then its children walked, a container's children are walked. */
  method HoverNode(n: Node, px: real, py: real)
    requires Distinct(Flatten([n]))
    modifies (set b | b in Flatten([n]))`entered, (set b | b in Flatten([n]))`bodyColor
    ensures forall b :: b in Flatten([n]) ==> Hovered(b, px, py) && KeptByHover(b)
    decreases n
  {
    FlattenSingle(n);
    if n.Box? {
      var b, kids := n.box, n.kids;
      DistinctSplit([b], Flatten(kids));
      FlattenAllocated(kids);
      assert b in Flatten([n]) && forall k :: k in Flatten(kids) ==> k in Flatten([n]) && k != b;
      HoverBox(b, px, py);
      label Mid:
      HandleHovered(kids, px, py);
      assert unchanged@Mid(b);
      forall k | k in Flatten(kids)
        ensures Hovered(k, px, py) && KeptByHover(k)
      {
        assert k != b;
        assert old@Mid(k.ContainsPoint(px, py)) == old(k.ContainsPoint(px, py));
        assert Hovered@Mid(k, px, py) && KeptByHover@Mid(k);
      }
    } else if n.Group? {
      HandleHovered(n.kids, px, py);
    }
  }

  lemma UnderPointerCons(b: TextBox, bs: seq<TextBox>, px: real, py: real)
    ensures UnderPointer([b] + bs, px, py) == (if b.ContainsPoint(px, py) then [b] else []) + UnderPointer(bs, px, py)
  {
    assert ([b] + bs)[0] == b && ([b] + bs)[1..] == bs;
  }

  /** The boxes under the pointer of each longer prefix of a forest extend those of the shorter by the next node's. */
  lemma UnderPointerPrefixes(ns: seq<Node>, px: real, py: real)
    ensures forall i :: 0 <= i < |ns| ==>
      UnderPointer(Flatten(ns[..i + 1]), px, py) == UnderPointer(Flatten(ns[..i]), px, py) + UnderPointer(Flatten([ns[i]]), px, py)
  {
    forall i | 0 <= i < |ns|
      ensures UnderPointer(Flatten(ns[..i + 1]), px, py) == UnderPointer(Flatten(ns[..i]), px, py) + UnderPointer(Flatten([ns[i]]), px, py)
    {
      FlattenSnoc(ns, i);
      UnderPointerAppend(Flatten(ns[..i]), Flatten([ns[i]]), px, py);
    }
  }

  /** The effect of `storePressed` on one box: a shown box under the pointer is pressed, every other box keeps its colour; nothing else changes. */
  twostate predicate PressedAt(b: TextBox, px: real, py: real)
    reads b, b.position, b.size
  {
    && b.bodyColor == (if old(b.visible) && old(b.ContainsPoint(px, py)) then Darken(old(b.bodyColor), PressStep) else old(b.bodyColor))
    && b.text == old(b.text) && b.visible == old(b.visible) && b.toggled == old(b.toggled) && b.entered == old(b.entered)
  }

  /**
   * `storePressed`: a depth-first walk that returns, in order, every box of
   * the forest under the pointer, shown or not, pressing each one (which
   * changes only a shown box); containers are walked through without a
   * test, other items skipped. The caller appends the result to
   * `pressedItems`.
   */
  method StorePressed(ns: seq<Node>, px: real, py: real) returns (hits: seq<TextBox>)
    requires Distinct(Flatten(ns))
    modifies (set b | b in Flatten(ns))`bodyColor
    ensures hits == old(UnderPointer(Flatten(ns), px, py))
    ensures forall b :: b in Flatten(ns) ==> PressedAt(b, px, py)
    decreases ns
  {
    FlattenAllocated(ns);
    UnderPointerPrefixes(ns, px, py);
    hits := [];
    for i := 0 to |ns|
      invariant forall b :: b in Flatten(ns) ==> old(allocated(b))
      invariant forall b :: b in Flatten(ns[..i]) ==> b in Flatten(ns)
      invariant hits == old(UnderPointer(Flatten(ns[..i]), px, py))
      invariant forall b :: b in Flatten(ns[..i]) ==> PressedAt(b, px, py)
      invariant forall b :: b in Flatten(ns) && b !in Flatten(ns[..i]) ==> unchanged(b)
    {
      FlattenSplit(ns, i + 1);
      FlattenSnoc(ns, i);
      DistinctSplit(Flatten(ns[..i + 1]), Flatten(ns[i + 1..]));
      DistinctSplit(Flatten(ns[..i]), Flatten([ns[i]]));
      assert forall b :: b in Flatten([ns[i]]) ==> b in Flatten(ns);
      label Before:
      assert UnderPointer(Flatten([ns[i]]), px, py) == old(UnderPointer(Flatten([ns[i]]), px, py));
      var more := PressNode(ns[i], px, py);
      hits := hits + more;
      forall b | b in Flatten([ns[i]])
        ensures PressedAt(b, px, py)
      {
        assert b in Flatten(ns) && b !in Flatten(ns[..i]);
        assert PressedAt@Before(b, px, py);
      }
      forall b | b in Flatten(ns[..i])
        ensures PressedAt(b, px, py)
      {
        assert b in Flatten(ns) && b !in Flatten([ns[i]]);
        assert unchanged@Before(b);
      }
    }
    assert ns[..|ns|] == ns;
  }

  /** One item of the walk: a box is matched against the pointer and then its children walked, a container's children are walked. */
  method PressNode(n: Node, px: real, py: real) returns (hits: seq<TextBox>)
    requires Distinct(Flatten([n]))
    modifies (set b | b in Flatten([n]))`bodyColor
    ensures hits == old(UnderPointer(Flatten([n]), px, py))
    ensures forall b :: b in Flatten([n]) ==> PressedAt(b, px, py)
    decreases n
  {
    FlattenSingle(n);
    hits := [];
    if n.Box? {
      var b, kids := n.box, n.kids;
      DistinctSplit([b], Flatten(kids));
      FlattenAllocated(kids);
      UnderPointerCons(b, Flatten(kids), px, py);
      if b.ContainsPoint(px, py) {
        b.IsPressed();
        hits := [b];
      }
      label Mid:
      assert UnderPointer(Flatten(kids), px, py) == old(UnderPointer(Flatten(kids), px, py));
      var more := StorePressed(kids, px, py);
      hits := hits + more;
      assert unchanged@Mid(b);
    } else if n.Group? {
      hits := StorePressed(n.kids, px, py);
    }
  }
}
