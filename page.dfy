/**
 * The page: the module-level variables of the script, the per-instance
 * hooks its set-up code gives the widgets, input dispatch over the drawn
 * items, and the continuations of the quiz.
 */
module Script {
  import opened Wrappers
  import opened Colour
  import opened Widgets
  import opened Quiz
  import opened Scrolling
  import opened Game

  /** A call `handleClicked` makes on a recorded item: `isReleased`, or `isClicked`. */
  datatype Dispatch = Released(box: TextBox) | Clicked(box: TextBox)

  /** A hook running: a box's `onClick` or its `onSetToggled`. */
  datatype Hook = OnClickHook(box: TextBox) | OnSetToggledHook(box: TextBox)

  /** The events `input` receives. */
  datatype Event = MouseDown | MouseUp | MouseMove | ScrollUp | ScrollDown | OtherEvent

  /** Show or hide every box of a list, as the hooks' `for ... of` loops do. */
  method SetVisible(bs: seq<TextBox>, v: bool)
    modifies bs`visible
    ensures forall k :: 0 <= k < |bs| ==> bs[k].visible == v
  {
    for i := 0 to |bs|
      invariant forall k :: 0 <= k < i ==> bs[k].visible == v
    {
      bs[i].visible := v;
    }
  }

  /** The number of lines `createReading` adds, and of balls `createBalls` adds. */
  const ReadingLines: nat := 34
  const BallTotal: nat := 45

  /** A box at a given place, with a given size, text, hooks and visibility, as `new TextBox(...)` followed by the set-up's `visible` assignment. */
  method NewBox(x: real, y: real, w: real, h: real, text: string, role: Role, visible: bool) returns (b: TextBox)
    ensures fresh(b) && fresh(b.position) && fresh(b.size)
    ensures b.position.x == x && b.position.y == y && b.size.x == w && b.size.y == h
    ensures b.text == text && b.role == role && b.visible == visible
    ensures !b.toggled && !b.entered && b.bodyColor == Black
  {
    var position := new Vector2(x, y);
    var size := new Vector2(w, h);
    b := new TextBox(position, size, text, role);
    b.visible := visible;
  }

  /** The credits column below its header: four text lines and three links, all hidden. */
  method CreditLines() returns (ls: seq<TextBox>)
    ensures |ls| == 7 && Distinct(ls)
    ensures forall k :: 0 <= k < 7 ==> fresh(ls[k]) && !ls[k].visible && !ls[k].toggled
    ensures forall k :: 0 <= k < 4 ==> ls[k].role.Plain?
    ensures forall k :: 4 <= k < 7 ==> ls[k].role.Link?
  {
    var l0 := NewBox(0.0, 0.0, 0.0, 0.0, "All programming done", Plain, false);
    var l1 := NewBox(0.0, 0.0, 0.0, 0.0, "in native HTML, JS,", Plain, false);
    var l2 := NewBox(0.0, 0.0, 0.0, 0.0, "& CSS by Me :)", Plain, false);
    var l3 := NewBox(0.0, 0.0, 0.0, 0.0, "Reading Sources:", Plain, false);
    var l4 := NewBox(0.0, 0.0, 0.0, 0.0, "Source 1", Link, false);
    var l5 := NewBox(0.0, 0.0, 0.0, 0.0, "Source 2", Link, false);
    var l6 := NewBox(0.0, 0.0, 0.0, 0.0, "Source 3", Link, false);
    ls := [l0, l1, l2, l3, l4, l5, l6];
  }

  /** `createUI`: the two tabs and the credits column of the top bar; the credit lines start hidden. */
  method CreateUI(width: real) returns (readingTab: TextBox, gameTab: TextBox, header: TextBox, lines: seq<TextBox>, topBar: Control, credits: Control)
    ensures readingTab.role.ReadingTab? && gameTab.role.GameTab? && header.role.CreditsHeader?
    ensures readingTab.text == "Reading (Do First)" && gameTab.text == "Game"
    ensures readingTab.visible && gameTab.visible && header.visible
    ensures !readingTab.toggled && !gameTab.toggled && !header.toggled
    ensures |lines| == 7 && Distinct(lines)
    ensures forall k :: 0 <= k < 7 ==> !lines[k].visible && !lines[k].toggled
    ensures forall k :: 0 <= k < 4 ==> lines[k].role.Plain?
    ensures forall k :: 4 <= k < 7 ==> lines[k].role.Link?
  {
    topBar := NewControl(0.0, 0.0, 100.0, 50.0, Horizontal);
    readingTab := NewBox(0.0, 0.0, 100.0, 100.0, "Reading (Do First)", ReadingTab, true);
    gameTab := NewBox(0.0, 0.0, 100.0, 100.0, "Game", GameTab, true);
    credits := NewControl(0.0, 0.0, 100.0, if width < 800.0 then width else 800.0, Vertical);
    header := NewBox(0.0, 0.0, 100.0, 100.0, "Credits \U{2193}", CreditsHeader, true);
    lines := CreditLines();
  }

  /** `createGame`: the four hidden answer buttons in two columns, and the hidden drop button. */
  method CreateGame(width: real, height: real) returns (choices: seq<TextBox>, drop: TextBox, grid: Control, left: Control, right: Control)
    ensures |choices| == 4
    ensures forall k :: 0 <= k < 4 ==> fresh(choices[k]) && choices[k].role == Choice(AnswerLetters[k]) && !choices[k].visible && !choices[k].toggled
    ensures choices[0].text == "A" && choices[1].text == "B" && choices[2].text == "C" && choices[3].text == "D"
    ensures drop.role.Drop? && drop.text == "Drop!" && !drop.visible && !drop.toggled
  {
    var a := NewBox(0.0, 0.0, 0.0, 0.0, "A", Choice('a'), false);
    var b := NewBox(0.0, 0.0, 0.0, 0.0, "B", Choice('b'), false);
    var c := NewBox(0.0, 0.0, 0.0, 0.0, "C", Choice('c'), false);
    var d := NewBox(0.0, 0.0, 0.0, 0.0, "D", Choice('d'), false);
    choices := [a, b, c, d];
    grid := NewControl(width / 2.0 - 100.0, height / 2.0 - 100.0, 200.0, 100.0, Horizontal);
    left := NewControl(0.0, 0.0, 0.0, 200.0, Vertical);
    right := NewControl(0.0, 0.0, 0.0, 200.0, Vertical);
    drop := NewBox(width / 2.0 - 50.0, height / 2.0 - 50.0, 100.0, 100.0, "Drop!", Drop, false);
  }

  method NewControl(x: real, y: real, w: real, h: real, arrangement: Arrangement) returns (c: Control)
    ensures fresh(c) && fresh(c.position) && fresh(c.size)
    ensures c.position.x == x && c.position.y == y && c.size.x == w && c.size.y == h
    ensures c.arrangement == arrangement && c.visible
  {
    var position := new Vector2(x, y);
    var size := new Vector2(w, h);
    c := new Control(position, size, arrangement);
  }

  /** Items of the drawn lists that input dispatch skips: reading lines, physics balls, the prompt and the game ball. */
  function Inerts(n: nat): (r: seq<Node>)
    ensures |r| == n && forall k :: 0 <= k < n ==> r[k] == Inert
  {
    seq(n, _ => Inert)
  }

  /** Boxes without children. */
  function Leaves(bs: seq<TextBox>): (r: seq<Node>)
    ensures |r| == |bs| && forall k :: 0 <= k < |bs| ==> r[k] == Box(bs[k], [])
  {
    seq(|bs|, k requires 0 <= k < |bs| => Box(bs[k], []))
  }

  lemma {:induction false} FlattenInerts(ns: seq<Node>)
    requires forall k :: 0 <= k < |ns| ==> ns[k] == Inert
    ensures Flatten(ns) == []
  {
    if ns != [] {
      FlattenInerts(ns[1..]);
    }
  }

  lemma {:induction false} FlattenLeaves(ns: seq<Node>, bs: seq<TextBox>)
    requires |ns| == |bs| && forall k :: 0 <= k < |bs| ==> ns[k] == Box(bs[k], [])
    ensures Flatten(ns) == bs
  {
    if ns != [] {
      FlattenLeaves(ns[1..], bs[1..]);
      assert Flatten(ns[0].kids) == [];
      assert bs == [bs[0]] + bs[1..];
    }
  }

  /** drawnItems as the set-up leaves it: the reading lines, the top bar (two tabs and the credits column), the balls, and the game items (the two answer columns, the prompt, the drop button, the game ball). */
  function SceneOf(readingTab: TextBox, gameTab: TextBox, header: TextBox, lines: seq<TextBox>, choices: seq<TextBox>, drop: TextBox,
                   topBar: Control, credits: Control, grid: Control, left: Control, right: Control): seq<Node>
    requires |choices| == 4
  {
    Inerts(ReadingLines)
    + [Group(topBar, [Box(readingTab, []), Box(gameTab, []), Group(credits, [Box(header, [])] + Leaves(lines))])]
    + Inerts(BallTotal)
    + [Group(grid, [Group(left, [Box(choices[0], []), Box(choices[2], [])]), Group(right, [Box(choices[1], []), Box(choices[3], [])])]),
       Inert, Box(drop, []), Inert]
  }

  lemma FlattenLeaf(b: TextBox)
    ensures Flatten([Box(b, [])]) == [b]
  {
    FlattenSingle(Box(b, []));
  }

  lemma FlattenPair(m: Node, n: Node)
    ensures Flatten([m, n]) == Flatten([m]) + Flatten([n])
  {
    assert [m, n] == [m] + [n];
    FlattenAppend([m], [n]);
  }

  /** The boxes of the top bar: the two tabs, the header, the credit lines. */
  lemma BarBoxes(readingTab: TextBox, gameTab: TextBox, header: TextBox, lines: seq<TextBox>, topBar: Control, credits: Control)
    ensures Flatten([Group(topBar, [Box(readingTab, []), Box(gameTab, []), Group(credits, [Box(header, [])] + Leaves(lines))])])
         == [readingTab, gameTab, header] + lines
  {
    var column := [Box(header, [])] + Leaves(lines);
    var tabs := [Box(readingTab, []), Box(gameTab, [])];
    var bar := tabs + [Group(credits, column)];
    FlattenLeaves(Leaves(lines), lines);
    FlattenLeaf(header);
    FlattenAppend([Box(header, [])], Leaves(lines));
    assert Flatten(column) == [header] + lines;
    FlattenSingle(Group(credits, column));
    FlattenLeaf(readingTab);
    FlattenLeaf(gameTab);
    FlattenPair(Box(readingTab, []), Box(gameTab, []));
    assert Flatten(tabs) == [readingTab, gameTab];
    FlattenAppend(tabs, [Group(credits, column)]);
    assert Flatten(bar) == [readingTab, gameTab] + ([header] + lines);
    assert bar == [Box(readingTab, []), Box(gameTab, []), Group(credits, column)];
    FlattenSingle(Group(topBar, bar));
  }

  /** The boxes of the game items: the answer buttons column by column, then the drop button. */
  lemma GameBoxes(choices: seq<TextBox>, drop: TextBox, grid: Control, left: Control, right: Control)
    requires |choices| == 4
    ensures Flatten([Group(grid, [Group(left, [Box(choices[0], []), Box(choices[2], [])]), Group(right, [Box(choices[1], []), Box(choices[3], [])])]),
                     Inert, Box(drop, []), Inert])
         == [choices[0], choices[2], choices[1], choices[3], drop]
  {
    var leftColumn := [Box(choices[0], []), Box(choices[2], [])];
    var rightColumn := [Box(choices[1], []), Box(choices[3], [])];
    var answers := [Group(left, leftColumn), Group(right, rightColumn)];
    FlattenLeaf(choices[0]);
    FlattenLeaf(choices[1]);
    FlattenLeaf(choices[2]);
    FlattenLeaf(choices[3]);
    FlattenPair(Box(choices[0], []), Box(choices[2], []));
    FlattenPair(Box(choices[1], []), Box(choices[3], []));
    FlattenSingle(Group(left, leftColumn));
    FlattenSingle(Group(right, rightColumn));
    FlattenPair(Group(left, leftColumn), Group(right, rightColumn));
    FlattenSingle(Group(grid, answers));
    FlattenSingle(Inert);
    FlattenLeaf(drop);
    FlattenPair(Group(grid, answers), Inert);
    FlattenPair(Box(drop, []), Inert);
    FlattenAppend([Group(grid, answers), Inert], [Box(drop, []), Inert]);
    assert [Group(grid, answers), Inert] + [Box(drop, []), Inert] == [Group(grid, answers), Inert, Box(drop, []), Inert];
  }

  /** The boxes of that scene in walk order. */
  lemma SceneBoxes(readingTab: TextBox, gameTab: TextBox, header: TextBox, lines: seq<TextBox>, choices: seq<TextBox>, drop: TextBox,
                   topBar: Control, credits: Control, grid: Control, left: Control, right: Control)
    requires |choices| == 4
    ensures Flatten(SceneOf(readingTab, gameTab, header, lines, choices, drop, topBar, credits, grid, left, right))
         == [readingTab, gameTab, header] + lines + [choices[0], choices[2], choices[1], choices[3], drop]
  {
    var reading, balls := Inerts(ReadingLines), Inerts(BallTotal);
    var bar := [Group(topBar, [Box(readingTab, []), Box(gameTab, []), Group(credits, [Box(header, [])] + Leaves(lines))])];
    var game := [Group(grid, [Group(left, [Box(choices[0], []), Box(choices[2], [])]), Group(right, [Box(choices[1], []), Box(choices[3], [])])]),
                 Inert, Box(drop, []), Inert];
    FlattenInerts(reading);
    FlattenInerts(balls);
    BarBoxes(readingTab, gameTab, header, lines, topBar, credits);
    GameBoxes(choices, drop, grid, left, right);
    FlattenAppend(reading, bar);
    FlattenAppend(reading + bar, balls);
    FlattenAppend(reading + bar + balls, game);
  }

  /** A walk order whose boxes differ in their hooks, except among the credit lines, which differ among themselves, repeats no box. */
  lemma BoxesDistinct(readingTab: TextBox, gameTab: TextBox, header: TextBox, lines: seq<TextBox>, choices: seq<TextBox>, drop: TextBox)
    requires readingTab.role.ReadingTab? && gameTab.role.GameTab? && header.role.CreditsHeader? && drop.role.Drop?
    requires |lines| == 7 && (forall k :: 0 <= k < |lines| ==> lines[k].role.Plain? || lines[k].role.Link?)
    requires |choices| == 4 && (forall k :: 0 <= k < 4 ==> choices[k].role == Choice(AnswerLetters[k]))
    requires Distinct(lines)
    ensures Distinct([readingTab, gameTab, header] + lines + [choices[0], choices[2], choices[1], choices[3], drop])
  {
    var s := [readingTab, gameTab, header] + lines + [choices[0], choices[2], choices[1], choices[3], drop];
    forall i, j | 0 <= i < j < |s|
      ensures s[i] != s[j]
    {
      if 3 <= i && j < 10 {
        assert s[i] == lines[i - 3] && s[j] == lines[j - 3];
      } else {
        assert s[i].role != s[j].role;
      }
    }
  }

  /** Which boxes' `onClick` detoggles the box itself: the links, the answer buttons and the drop button. */
  predicate DetogglesItself(r: Role) {
    r.Link? || r.Choice? || r.Drop?
  }

  /** What `b.onSetToggled()` does to the variables, by the hooks the set-up gave `b` and the toggle `b` now has. */
  function AfterSetToggled(s: Session, r: Role, on: bool): Session {
    match r
    case ReadingTab => ReadingSet(s, on)
    case GameTab => GameSet(s, on)
    case _ => s
  }

  /**
   * What `isClicked` on a visible box does to the variables, by the box's
   * hooks and the toggles the two tabs had before: a tab's `onClick` turns
   * the other tab off (running its hook) and its own hook then follows the
   * flipped toggle, an answer button checks its letter, the drop button
   * releases the balls; the other hooks leave the variables alone.
   */
  function AfterClick(s: Session, r: Role, readingOn: bool, gameOn: bool, width: real, height: real): Session {
    match r
    case ReadingTab => ReadingSet(if gameOn then GameSet(s, false) else s, !readingOn)
    case GameTab => GameSet(if readingOn then ReadingSet(s, false) else s, !gameOn)
    case Choice(letter) => Checked(s, letter, width, height)
    case Drop => Dropped(s)
    case _ => s
  }

  /**
   * The two tabs exclude each other, and what each shows follows it:
   * starting from a state where the reading shows exactly when its tab is
   * on, the game runs exactly when its tab is on and not both are on, a
   * click on either tab leaves at most one of them on, with the reading
   * and the game following their tabs.
   */
  lemma {:induction false} TabsExclusive(s: Session, r: Role, readingOn: bool, gameOn: bool, width: real, height: real)
    requires r.ReadingTab? || r.GameTab?
    requires !(readingOn && gameOn) && s.readingShown == readingOn && s.gamePlaying == gameOn
    ensures var t := AfterClick(s, r, readingOn, gameOn, width, height);
      && (r.ReadingTab? ==> t.readingShown == !readingOn && !t.gamePlaying)
      && (r.GameTab? ==> t.gamePlaying == !gameOn && !t.readingShown)
      && !(t.readingShown && t.gamePlaying)
  {
    if r.ReadingTab? {
      var g := if gameOn then GameSet(s, false) else s;
      assert !g.gamePlaying;
    } else {
      var g := if readingOn then ReadingSet(s, false) else s;
      assert !g.readingShown;
    }
  }

  /** A click scrolls the reading back to the top exactly when it sets the reading tab's hook off: a reading-tab click, or a game-tab click while the reading shows. Every other click leaves the offset alone. */
  lemma ClickScroll(s: Session, r: Role, readingOn: bool, gameOn: bool, width: real, height: real)
    ensures var t := AfterClick(s, r, readingOn, gameOn, width, height);
      t.scrollY == if r.ReadingTab? || (r.GameTab? && readingOn) then 0.0 else s.scrollY
  {
  }

  /** What `handleClicked` dispatches for one item: its release, then its click when it contains the pointer. */
  function ItemCalls(b: TextBox, hit: bool): seq<Dispatch> {
    if hit then [Released(b), Clicked(b)] else [Released(b)]
  }

  /** What `handleClicked` dispatches for the recorded items, in their order. */
  ghost function Expected(ps: seq<TextBox>, px: real, py: real): seq<Dispatch>
    reads set b | b in ps :: b.position, set b | b in ps :: b.size
  {
    if ps == [] then []
    else Expected(ps[..|ps| - 1], px, py) + ItemCalls(ps[|ps| - 1], ps[|ps| - 1].ContainsPoint(px, py))
  }

  /** Each longer prefix of the recorded items expects what the shorter does, then the next item's release and click. */
  lemma ExpectedPrefixes(ps: seq<TextBox>, px: real, py: real)
    ensures forall i :: 0 <= i < |ps| ==> Expected(ps[..i + 1], px, py) == Expected(ps[..i], px, py) + ItemCalls(ps[i], ps[i].ContainsPoint(px, py))
  {
    forall i | 0 <= i < |ps|
      ensures Expected(ps[..i + 1], px, py) == Expected(ps[..i], px, py) + ItemCalls(ps[i], ps[i].ContainsPoint(px, py))
    {
      assert ps[..i + 1][..i] == ps[..i];
    }
  }

  /** `hooks` continues `hooks0` with `b`'s `onClick` first and `b`'s `onSetToggled` last. */
  ghost predicate Bracketed(hooks0: seq<Hook>, hooks: seq<Hook>, b: TextBox) {
    |hooks| >= |hooks0| + 2 && hooks[..|hooks0|] == hooks0 && hooks[|hooks0|] == OnClickHook(b) && hooks[|hooks| - 1] == OnSetToggledHook(b)
  }

  /** The hooks a click on `b` runs, `onClick`, its side calls, then `onSetToggled`, bracket the new part. */
  lemma BracketedBy(hooks0: seq<Hook>, b: TextBox, mid: seq<Hook>)
    ensures Bracketed(hooks0, hooks0 + [OnClickHook(b)] + mid + [OnSetToggledHook(b)], b)
  {
    var h := hooks0 + [OnClickHook(b)] + mid + [OnSetToggledHook(b)];
    assert h[..|hooks0|] == hooks0;
  }

  lemma Associate(a: seq<Dispatch>, b: seq<Dispatch>, c: seq<Dispatch>)
    ensures a + b + c == a + (b + c)
  {
  }

  /** The shape the set-up code gives the page: which box has which hooks, and where each sits among the drawn items. */
  ghost predicate Laid(readingTab: TextBox, gameTab: TextBox, header: TextBox, lines: seq<TextBox>, choices: seq<TextBox>, drop: TextBox, boxes: seq<TextBox>) {
    && readingTab.role.ReadingTab? && gameTab.role.GameTab?
    && header.role.CreditsHeader? && drop.role.Drop?
    && |lines| == 7 && (forall k :: 0 <= k < |lines| ==> lines[k].role == if k < 4 then Plain else Link)
    && |choices| == 4 && (forall k :: 0 <= k < |choices| ==> choices[k].role == Choice(AnswerLetters[k]))
    && boxes == [readingTab, gameTab, header] + lines + [choices[0], choices[2], choices[1], choices[3], drop]
  }

  class Page {
    const readingTab: TextBox
    const gameTab: TextBox
    /** The "Credits" box heading the credits column. */
    const header: TextBox
    /** The seven boxes below the header: four text lines, then the three source links. */
    const lines: seq<TextBox>
    /** The answer buttons A, B, C, D. */
    const choices: seq<TextBox>
    /** gameItems[2], the "Drop!" button. */
    const drop: TextBox
    /** Every box of the drawn items, in the order a walk over them meets it. */
    const boxes: seq<TextBox>
    /** drawnItems, one level flattened: the reading lines, the top bar, the physics balls, the game items. */
    const scene: seq<Node>
    const readingHeight: real
    /** originalTextYArr[0], the top of the first reading line. */
    const firstLineY: real
    var canvasWidth: real
    var canvasHeight: real
    /** mousePos */
    var mouseX: real
    var mouseY: real
    /** inputs.mouseDown, inputs.mouseUp */
    var mouseDown: bool
    var mouseUp: bool
    /** pressedItems */
    var pressed: seq<TextBox>
    /** The other module-level variables. */
    var s: Session
    /** The calls `handleClicked` has made so far, oldest first. */
    ghost var dispatched: seq<Dispatch>
    /** The hooks that have run so far, oldest first. */
    ghost var hooks: seq<Hook>

    /** The set-up part of `init` on a canvas of the given size, with the height the reading lines take up: `createUI`, `createBalls`, `createReading`, `createGame`. */
    constructor (width: real, height: real, readingHeight: real)
      ensures Valid()
      ensures canvasWidth == width && canvasHeight == height
      ensures this.readingHeight == readingHeight && firstLineY == 200.0
      ensures mouseX == 0.0 && mouseY == 0.0 && !mouseDown && !mouseUp && pressed == [] && hooks == [] && dispatched == []
      ensures s == Initial
    {
      var rt, gt, hd, ls, topBar, credits := CreateUI(width);
      var cs, dp, grid, left, right := CreateGame(width, height);
      SceneBoxes(rt, gt, hd, ls, cs, dp, topBar, credits, grid, left, right);
      BoxesDistinct(rt, gt, hd, ls, cs, dp);
      var bs := [rt, gt, hd] + ls + [cs[0], cs[2], cs[1], cs[3], dp];
      assert Laid(rt, gt, hd, ls, cs, dp, bs);
      readingTab, gameTab, header, lines, choices, drop, boxes := rt, gt, hd, ls, cs, dp, bs;
      scene := SceneOf(rt, gt, hd, ls, cs, dp, topBar, credits, grid, left, right);
      this.readingHeight, firstLineY := readingHeight, 200.0;
      canvasWidth, canvasHeight := width, height;
      mouseX, mouseY, mouseDown, mouseUp, pressed := 0.0, 0.0, false, false, [];
      s, hooks, dispatched := Initial, [], [];
    }

    /** The shape the set-up code gives the page. */
    ghost predicate Wf() {
      Laid(readingTab, gameTab, header, lines, choices, drop, boxes)
    }

    /** The drawn items hold exactly the page's boxes, each once. */
    ghost predicate Walk() {
      Flatten(scene) == boxes && Distinct(boxes)
    }

    /** What holds between events. */
    ghost predicate Inv()
      reads this`s, this`pressed, readingTab`visible, readingTab`toggled, gameTab`visible, gameTab`toggled, header`visible, drop`visible, choices`visible
    {
      && readingTab.visible && gameTab.visible && header.visible
      // the two tabs exclude each other, and each one's content follows it
      && !(readingTab.toggled && gameTab.toggled)
      && s.readingShown == readingTab.toggled
      && s.gamePlaying == gameTab.toggled
      && Consistent(s)
      // no answer button and no drop button outside a game
      && (forall k :: 0 <= k < |choices| && choices[k].visible ==> s.gamePlaying)
      && (drop.visible ==> s.ballGame)
      && (forall b :: b in pressed ==> b in boxes)
    }

    /** What holds between events: the shape, the walk, the invariant, and the scroll offset in its bounds. */
    ghost predicate Valid()
      reads this`s, this`pressed, this`canvasHeight, readingTab`visible, readingTab`toggled, gameTab`visible, gameTab`toggled, header`visible, drop`visible, choices`visible
    {
      Wf() && Walk() && Inv() && ScrollInRange()
    }

    /** The role of a box of the page tells which of the named boxes it is. */
    lemma RoleOf(b: TextBox)
      requires Wf() && b in boxes
      ensures b.role.ReadingTab? ==> b == readingTab
      ensures b.role.GameTab? ==> b == gameTab
      ensures b.role.CreditsHeader? ==> b == header
      ensures b.role.Drop? ==> b == drop
      ensures b.role.Link? || b.role.Plain? ==> b in lines
      ensures b.role.Choice? ==> b in choices
    {
      var tail := [choices[0], choices[2], choices[1], choices[3], drop];
      assert b in [readingTab, gameTab, header] || b in lines || b in tail;
    }

    /** The named boxes and the two lists are all among the page's boxes. */
    lemma Covered()
      requires Wf()
      ensures readingTab in boxes && gameTab in boxes && header in boxes && drop in boxes
      ensures forall c {:trigger c in choices} :: c in choices ==> c in boxes
      ensures forall l {:trigger l in lines} :: l in lines ==> l in boxes
    {
      var tail := [choices[0], choices[2], choices[1], choices[3], drop];
      assert boxes == [readingTab, gameTab, header] + lines + tail;
      forall c | c in choices
        ensures c in boxes
      {
        assert c in tail;
      }
    }

    /** A box with a tab's hooks is that tab. */
    ghost predicate Named(b: TextBox) {
      (b.role.ReadingTab? ==> b == readingTab) && (b.role.GameTab? ==> b == gameTab)
    }

    /** The page, when `b.onSetToggled()` changes the variables: only the tabs' hooks do. */
    function SetBy(b: TextBox): set<Page> {
      if b.role.ReadingTab? || b.role.GameTab? then {this} else {}
    }

    /** The boxes `b.onSetToggled()` shows or hides: the game tab's hook shows or hides the answer buttons and hides the drop button. */
    function ShownBy(b: TextBox): seq<TextBox> {
      if b.role.GameTab? then choices + [drop] else []
    }

    /** Every answer button is shown (`v`) or hidden. */
    predicate Shown(v: bool)
      reads choices`visible
    {
      forall k :: 0 <= k < |choices| ==> choices[k].visible == v
    }

    /** No answer button was shown or hidden. */
    twostate predicate ButtonsKept()
      reads choices`visible
    {
      forall k :: 0 <= k < |choices| ==> choices[k].visible == old(choices[k].visible)
    }

    /** No credit line was shown or hidden. */
    twostate predicate LinesKept()
      reads lines`visible
    {
      forall k :: 0 <= k < |lines| ==> lines[k].visible == old(lines[k].visible)
    }

    /**
     * What a click on the visible `b` shows and hides, by the hooks the
     * set-up gave it: every credit line follows the header's new toggle; a
     * tab hides the drop button and shows the answer buttons exactly when
     * it is the game tab and now on; an answer hides every answer button;
     * the drop button hides itself; nothing else is shown or hidden, and
     * only the reading tab relabels itself.
     */
    twostate predicate ClickShows(b: TextBox)
      reads readingTab`text, choices`visible, lines`visible, drop`visible, header`toggled, gameTab`toggled
    {
      && (b.role.CreditsHeader? ==> forall k :: 0 <= k < |lines| ==> lines[k].visible == header.toggled)
      && (!b.role.CreditsHeader? ==> LinesKept())
      && (b.role.ReadingTab? ==> Shown(false) && !drop.visible)
      && (b.role.GameTab? ==> Shown(gameTab.toggled) && !drop.visible)
      && (b.role.Choice? ==> Shown(false))
      && (!b.role.ReadingTab? && !b.role.GameTab? && !b.role.Choice? ==> ButtonsKept())
      && (b.role.Drop? ==> !drop.visible)
      && (!b.role.ReadingTab? && !b.role.GameTab? && !b.role.Drop? ==> drop.visible == old(drop.visible))
      && (!b.role.ReadingTab? ==> readingTab.text == old(readingTab.text))
    }

    /** The named boxes are not among the answer buttons. */
    ghost predicate Apart() {
      && readingTab !in choices && gameTab !in choices && header !in choices && drop !in choices
      && readingTab != drop && gameTab != drop && header != drop
    }

    /** The hooks leave alone the tabs' and the header's visibility and the pressed items. */
    twostate predicate Framed()
      reads this`pressed, readingTab`visible, gameTab`visible, header`visible
    {
      && readingTab.visible == old(readingTab.visible) && gameTab.visible == old(gameTab.visible)
      && header.visible == old(header.visible) && pressed == old(pressed)
    }

    /** Neither tab was toggled or detoggled. */
    twostate predicate TabsKept()
      reads readingTab`toggled, gameTab`toggled
    {
      readingTab.toggled == old(readingTab.toggled) && gameTab.toggled == old(gameTab.toggled)
    }

    /** The scroll offset lies between the lowest the text may scroll to and the top. */
    predicate ScrollInRange()
      reads this`s, this`canvasHeight
    {
      -Limit(readingHeight, canvasHeight, firstLineY) <= s.scrollY <= 0.0
    }

    /** `askNextQuestion`: the prompt of `Asked`, and the answer buttons hidden once every question is answered. */
    method AskNextQuestion()
      requires Apart()
      modifies this`s, choices`visible
      ensures s == Asked(old(s))
      ensures !old(s).gamePlaying ==> s == old(s)
      ensures AllAnswered(old(s)) ==> Shown(false)
      ensures !AllAnswered(old(s)) ==> ButtonsKept()
      ensures Framed() && TabsKept()
    {
      if !s.gamePlaying {
        return;
      }
      if s.questionIndex == QuestionCount {
        s := s.(prompt := Final);
        SetVisible(choices, false);
        return;
      }
      s := s.(prompt := Question(s.questionIndex));
    }

    /** The reading tab's `onSetToggled`. */
    method ReadingToggled()
      modifies this`s, this`hooks
      ensures hooks == old(hooks) + [OnSetToggledHook(readingTab)]
      ensures s == ReadingSet(old(s), readingTab.toggled)
      ensures Framed() && TabsKept()
    {
      hooks := hooks + [OnSetToggledHook(readingTab)];
      s := s.(readingShown := readingTab.toggled, scrollY := 0.0);
    }

    /** The game tab's `onSetToggled`: the variables of `GameSet`, the answer buttons following the tab, the drop button hidden. */
    method GameToggled()
      requires Apart()
      modifies this`s, this`hooks, choices`visible, drop`visible
      ensures hooks == old(hooks) + [OnSetToggledHook(gameTab)]
      ensures s == GameSet(old(s), gameTab.toggled)
      ensures Shown(gameTab.toggled) && !drop.visible
      ensures Framed() && TabsKept()
    {
      hooks := hooks + [OnSetToggledHook(gameTab)];
      var on := gameTab.toggled;
      s := s.(gamePlaying := on, ballGame := false, physicsMode := 0);
      SetVisible(choices, on);
      s := s.(promptVisible := on);
      drop.visible := false;
      s := s.(ballVisible := on, ballText := Count(0), questionIndex := 0);
      AskNextQuestion();
    }

    /** `b.onSetToggled()`, by the hooks the set-up gave `b`: only the two tabs' do anything. */
    method OnSetToggled(b: TextBox)
      requires Apart() && Named(b)
      modifies SetBy(b)`s, this`hooks, ShownBy(b)`visible
      ensures hooks == old(hooks) + [OnSetToggledHook(b)]
      ensures s == AfterSetToggled(old(s), b.role, b.toggled)
      ensures b.role.GameTab? ==> Shown(b.toggled) && !drop.visible
      ensures Framed() && TabsKept()
    {
      match b.role {
        case ReadingTab => ReadingToggled();
        case GameTab =>
          assert SetBy(b) == {this} && ShownBy(b) == choices + [drop];
          assert forall o :: o in choices ==> o in ShownBy(b);
          assert drop in ShownBy(b);
          GameToggled();
        case _ => hooks := hooks + [OnSetToggledHook(b)];
      }
    }

    /** `deToggle`: an untoggled box is left alone and no hook runs; a toggled one goes back to black and untoggled, then its `onSetToggled` runs once. */
    method DeToggle(b: TextBox)
      requires Apart() && Named(b)
      modifies b`toggled, b`bodyColor, SetBy(b)`s, this`hooks, ShownBy(b)`visible
      ensures !b.toggled
      ensures b.bodyColor == if old(b.toggled) then Black else old(b.bodyColor)
      ensures hooks == old(hooks) + if old(b.toggled) then [OnSetToggledHook(b)] else []
      ensures s == if old(b.toggled) then AfterSetToggled(old(s), b.role, false) else old(s)
      ensures b.role.GameTab? ==> if old(b.toggled) then Shown(false) && !drop.visible else ButtonsKept() && drop.visible == old(drop.visible)
      ensures Framed()
    {
      if !b.toggled {
        return;
      }
      b.toggled := false;
      b.bodyColor := Black;
      OnSetToggled(b);
    }

    /** `checkAnswer`: the variables of `Checked`, and during a game every answer button hidden (the source walks them column by column). */
    method CheckAnswer(letter: char)
      requires Apart()
      modifies this`s, choices`visible
      ensures s == Checked(old(s), letter, canvasWidth, canvasHeight)
      ensures old(s).gamePlaying ==> Shown(false)
      ensures !old(s).gamePlaying ==> ButtonsKept()
      ensures Framed() && TabsKept()
    {
      if !s.gamePlaying {
        return;
      }
      var correct := IsCorrect(letter, s.questionIndex);
      s := s.(answerCorrect := correct, prompt := Verdict(correct));
      SetVisible(choices, false);
      s := s.(ballGame := true, targetX := canvasWidth / 2.0, targetY := canvasHeight / 2.0 - 200.0);
    }

    /**
     * The hook calls `b.onClick()` makes when the click finds `b` toggled
     * as `wasOn` and the two tabs as given: a tab runs the other tab's
     * `onSetToggled` when it detoggles it, and a box whose `onClick`
     * detoggles the box itself runs its own when the click has just toggled
     * it on.
     */
    function SideCalls(b: TextBox, wasOn: bool, readingOn: bool, gameOn: bool): (r: seq<Hook>)
      ensures forall k :: 0 <= k < |r| ==> r[k].OnSetToggledHook?
      ensures |r| <= 1
    {
      match b.role
      case ReadingTab => if gameOn then [OnSetToggledHook(gameTab)] else []
      case GameTab => if readingOn then [OnSetToggledHook(readingTab)] else []
      case CreditsHeader => []
      case Plain => []
      case _ => if wasOn then [] else [OnSetToggledHook(b)]
    }

    /** The reading tab's `onClick`: `deToggle` on the game tab, and the tab's label shortened. */
    method ReadingTabOnClick()
      requires Apart() && readingTab.role.ReadingTab? && gameTab.role.GameTab?
      modifies readingTab`text, gameTab`toggled, gameTab`bodyColor, this`s, this`hooks, choices`visible, drop`visible
      ensures readingTab.text == "Reading"
      ensures !gameTab.toggled && gameTab.bodyColor == if old(gameTab.toggled) then Black else old(gameTab.bodyColor)
      ensures hooks == old(hooks) + if old(gameTab.toggled) then [OnSetToggledHook(gameTab)] else []
      ensures s == if old(gameTab.toggled) then GameSet(old(s), false) else old(s)
      ensures if old(gameTab.toggled) then Shown(false) && !drop.visible else ButtonsKept() && drop.visible == old(drop.visible)
      ensures Framed() && readingTab.toggled == old(readingTab.toggled)
    {
      assert SetBy(gameTab) == {this} && ShownBy(gameTab) == choices + [drop];
      DeToggle(gameTab);
      readingTab.text := "Reading";
    }

    /** `isClicked` on the visible reading tab: its `onClick` detoggles the game tab and relabels the tab, its `onSetToggled` shows or hides the reading. */
    method ReadingTabClicked()
      requires Valid()
      modifies readingTab`toggled, readingTab`bodyColor, readingTab`entered, readingTab`text,
               gameTab`toggled, gameTab`bodyColor, this`s, this`hooks, choices`visible, drop`visible
      ensures Valid()
      ensures hooks == old(hooks) + [OnClickHook(readingTab)] + (if old(gameTab.toggled) then [OnSetToggledHook(gameTab)] else []) + [OnSetToggledHook(readingTab)]
      ensures readingTab.toggled == !old(readingTab.toggled) && readingTab.entered && readingTab.text == "Reading"
      ensures readingTab.bodyColor == Lighten(if readingTab.toggled then ToggledOn else Black, HoverStep)
      ensures !gameTab.toggled && gameTab.bodyColor == if old(gameTab.toggled) then Black else old(gameTab.bodyColor)
      ensures s == ReadingSet(if old(gameTab.toggled) then GameSet(old(s), false) else old(s), readingTab.toggled)
      ensures Shown(false) && !drop.visible
    {
      readingTab.FlipAndHover();
      hooks := hooks + [OnClickHook(readingTab)];
      ReadingTabOnClick();
      ReadingToggled();
    }

    /** The game tab's `onClick`: `deToggle` on the reading tab. */
    method GameTabOnClick()
      requires Apart() && readingTab.role.ReadingTab? && gameTab.role.GameTab?
      modifies readingTab`toggled, readingTab`bodyColor, this`s, this`hooks
      ensures !readingTab.toggled && readingTab.bodyColor == if old(readingTab.toggled) then Black else old(readingTab.bodyColor)
      ensures hooks == old(hooks) + if old(readingTab.toggled) then [OnSetToggledHook(readingTab)] else []
      ensures s == if old(readingTab.toggled) then ReadingSet(old(s), false) else old(s)
      ensures Framed() && gameTab.toggled == old(gameTab.toggled)
    {
      assert SetBy(readingTab) == {this} && ShownBy(readingTab) == [];
      DeToggle(readingTab);
    }

    /** `isClicked` on the visible game tab: its `onClick` detoggles the reading tab, its `onSetToggled` starts or stops the game. */
    method GameTabClicked()
      requires Valid()
      modifies gameTab`toggled, gameTab`bodyColor, gameTab`entered,
               readingTab`toggled, readingTab`bodyColor, this`s, this`hooks, choices`visible, drop`visible
      ensures Valid()
      ensures hooks == old(hooks) + [OnClickHook(gameTab)] + (if old(readingTab.toggled) then [OnSetToggledHook(readingTab)] else []) + [OnSetToggledHook(gameTab)]
      ensures gameTab.toggled == !old(gameTab.toggled) && gameTab.entered
      ensures gameTab.bodyColor == Lighten(if gameTab.toggled then ToggledOn else Black, HoverStep)
      ensures !readingTab.toggled && readingTab.bodyColor == if old(readingTab.toggled) then Black else old(readingTab.bodyColor)
      ensures s == GameSet(if old(readingTab.toggled) then ReadingSet(old(s), false) else old(s), gameTab.toggled)
      ensures Shown(gameTab.toggled) && !drop.visible
    {
      gameTab.FlipAndHover();
      hooks := hooks + [OnClickHook(gameTab)];
      GameTabOnClick();
      GameToggled();
    }

    /** `isClicked` on the visible credits header: its `onClick` shows the credit lines when it is now toggled and hides them otherwise. */
    method HeaderClicked()
      requires Valid()
      modifies header`toggled, header`bodyColor, header`entered, lines`visible, this`hooks
      ensures Valid()
      ensures hooks == old(hooks) + [OnClickHook(header), OnSetToggledHook(header)]
      ensures header.toggled == !old(header.toggled) && header.entered
      ensures header.bodyColor == Lighten(if header.toggled then ToggledOn else Black, HoverStep)
      ensures forall k :: 0 <= k < |lines| ==> lines[k].visible == header.toggled
      ensures s == old(s)
    {
      header.FlipAndHover();
      hooks := hooks + [OnClickHook(header)];
      SetVisible(lines, header.toggled);
      hooks := hooks + [OnSetToggledHook(header)];
    }

    /** `isClicked` on a visible source link: its `onClick` opens the page (left out) and detoggles the link again. */
    method LinkClicked(b: TextBox)
      requires Valid() && b in lines && b.role.Link? && b.visible
      modifies b`toggled, b`bodyColor, b`entered, this`hooks
      ensures Valid()
      ensures hooks == old(hooks) + [OnClickHook(b)] + (if old(b.toggled) then [] else [OnSetToggledHook(b)]) + [OnSetToggledHook(b)]
      ensures !b.toggled && b.entered && b.bodyColor == if old(b.toggled) then Lighten(Black, HoverStep) else Black
    {
      b.FlipAndHover();
      hooks := hooks + [OnClickHook(b)];
      assert SetBy(b) == {} && ShownBy(b) == [];
      DeToggle(b);
      OnSetToggled(b);
    }

    /** An answer button's `onClick`: `checkAnswer` with the button's letter, then `deToggle` on the button. */
    method ChoiceOnClick(b: TextBox)
      requires Apart() && b in choices && b.role.Choice? && s.gamePlaying
      modifies b`toggled, b`bodyColor, this`s, this`hooks, choices`visible
      ensures !b.toggled && b.bodyColor == if old(b.toggled) then Black else old(b.bodyColor)
      ensures hooks == old(hooks) + if old(b.toggled) then [OnSetToggledHook(b)] else []
      ensures s == Checked(old(s), b.role.letter, canvasWidth, canvasHeight)
      ensures Shown(false)
      ensures Framed() && TabsKept()
    {
      CheckAnswer(b.role.letter);
      assert SetBy(b) == {} && ShownBy(b) == [];
      DeToggle(b);
    }

    /** `isClicked` on a visible answer button: its `onClick` checks the answer, which hides the buttons, then detoggles the button. */
    method ChoiceClicked(b: TextBox)
      requires Valid() && b in choices && b.role.Choice? && b.visible
      modifies b`toggled, b`bodyColor, b`entered, this`s, this`hooks, choices`visible
      ensures Valid()
      ensures hooks == old(hooks) + [OnClickHook(b)] + (if old(b.toggled) then [] else [OnSetToggledHook(b)]) + [OnSetToggledHook(b)]
      ensures !b.toggled && b.entered && b.bodyColor == if old(b.toggled) then Lighten(Black, HoverStep) else Black
      ensures s == Checked(old(s), b.role.letter, canvasWidth, canvasHeight)
      ensures s.gamePlaying && Shown(false)
    {
      b.FlipAndHover();
      hooks := hooks + [OnClickHook(b)];
      ChoiceOnClick(b);
      hooks := hooks + [OnSetToggledHook(b)];
    }

    /** `isClicked` on the visible drop button: its `onClick` detoggles and hides it, releases the balls and schedules `checkGameBall`. */
    method DropClicked()
      requires Valid() && drop.visible
      modifies drop`toggled, drop`bodyColor, drop`entered, drop`visible, this`s, this`hooks
      ensures Valid()
      ensures hooks == old(hooks) + [OnClickHook(drop)] + (if old(drop.toggled) then [] else [OnSetToggledHook(drop)]) + [OnSetToggledHook(drop)]
      ensures !drop.toggled && drop.entered && !drop.visible
      ensures drop.bodyColor == if old(drop.toggled) then Lighten(Black, HoverStep) else Black
      ensures s == Dropped(old(s))
    {
      drop.FlipAndHover();
      hooks := hooks + [OnClickHook(drop)];
      assert SetBy(drop) == {} && ShownBy(drop) == [];
      DeToggle(drop);
      drop.visible := false;
      s := Dropped(s);
      OnSetToggled(drop);
    }

    /** `isClicked` on a visible credit line: the default hooks do nothing. */
    method PlainClicked(b: TextBox)
      requires Valid() && b in lines && b.role.Plain? && b.visible
      modifies b`toggled, b`bodyColor, b`entered, this`hooks
      ensures Valid()
      ensures hooks == old(hooks) + [OnClickHook(b), OnSetToggledHook(b)]
      ensures b.toggled == !old(b.toggled) && b.entered
      ensures b.bodyColor == Lighten(if b.toggled then ToggledOn else Black, HoverStep)
    {
      b.FlipAndHover();
      hooks := hooks + [OnClickHook(b)];
      hooks := hooks + [OnSetToggledHook(b)];
    }

    /**
     * What `isClicked` leaves on the visible `b`, from hooks `hooks0`,
     * variables `s0`, `b` toggled as `wasOn` and the tabs as given: `b`'s
     * `onClick`, its side calls and its `onSetToggled` ran in that order;
     * `b` is hovered and painted by its new toggle; and the variables
     * follow `AfterClick`.
     */
    ghost predicate ClickedFrom(b: TextBox, hooks0: seq<Hook>, s0: Session, wasOn: bool, readingOn: bool, gameOn: bool)
      reads this`hooks, this`s, this`canvasWidth, this`canvasHeight, b`entered, b`toggled, b`bodyColor
    {
      && hooks == hooks0 + [OnClickHook(b)] + SideCalls(b, wasOn, readingOn, gameOn) + [OnSetToggledHook(b)]
      && b.entered && b.toggled == (!wasOn && !DetogglesItself(b.role))
      && b.bodyColor == (if !DetogglesItself(b.role) then Lighten(if b.toggled then ToggledOn else Black, HoverStep)
                         else if wasOn then Lighten(Black, HoverStep) else Black)
      && s == AfterClick(s0, b.role, readingOn, gameOn, canvasWidth, canvasHeight)
    }

    /** `ClickedFrom` measured from the previous state. */
    twostate predicate ClickOutcome(b: TextBox)
      reads this`hooks, this`s, this`canvasWidth, this`canvasHeight, b`entered, b`toggled, b`bodyColor
    {
      ClickedFrom(b, old(hooks), old(s), old(b.toggled), old(readingTab.toggled), old(gameTab.toggled))
    }

    /** A tab's click detoggles the other tab and paints it black if it was on; its hover stays. */
    twostate predicate OtherTabCleared(b: TextBox)
      reads readingTab`toggled, readingTab`entered, readingTab`bodyColor, gameTab`toggled, gameTab`entered, gameTab`bodyColor
    {
      && (b.role.ReadingTab? ==>
            !gameTab.toggled && gameTab.entered == old(gameTab.entered) && gameTab.bodyColor == if old(gameTab.toggled) then Black else old(gameTab.bodyColor))
      && (b.role.GameTab? ==>
            !readingTab.toggled && readingTab.entered == old(readingTab.entered) && readingTab.bodyColor == if old(readingTab.toggled) then Black else old(readingTab.bodyColor))
    }

    /** The boxes a click on `b` may repaint: `b` itself and, for a tab, the other tab, which its `onClick` detoggles. */
    function Repainted(b: TextBox): set<TextBox> {
      if b.role.ReadingTab? then {b, gameTab} else if b.role.GameTab? then {b, readingTab} else {b}
    }

    /**
     * `isClicked`: an invisible box is left alone and no hook runs. A
     * visible one flips its toggle and is painted and hovered, then its
     * `onClick` runs and after it its `onSetToggled`; the hooks are those
     * the set-up gave the box. Every other box keeps its toggle, colour
     * and hover (the frame says so), except the tab a tab's click detoggles.
     */
    method IsClicked(b: TextBox)
      requires Valid() && b in boxes
      modifies this`s, this`hooks, this`dispatched, readingTab`text, drop`visible, choices`visible, lines`visible
      modifies Repainted(b)`toggled, Repainted(b)`bodyColor, Repainted(b)`entered
      ensures Valid()
      ensures dispatched == old(dispatched) + [Clicked(b)]
      ensures !old(b.visible) ==> s == old(s) && hooks == old(hooks) && (forall k :: 0 <= k < |boxes| ==> unchanged(boxes[k]))
      ensures old(b.visible) ==> ClickOutcome(b) && ClickShows(b) && OtherTabCleared(b)
    {
      ClickBody(b);
      dispatched := dispatched + [Clicked(b)];
    }

    /** What `isClicked` does to the page, apart from being recorded. */
    method ClickBody(b: TextBox)
      requires Valid() && b in boxes
      modifies this`s, this`hooks, readingTab`text, drop`visible, choices`visible, lines`visible
      modifies Repainted(b)`toggled, Repainted(b)`bodyColor, Repainted(b)`entered
      ensures Valid()
      ensures !old(b.visible) ==> s == old(s) && hooks == old(hooks) && (forall k :: 0 <= k < |boxes| ==> unchanged(boxes[k]))
      ensures old(b.visible) ==> ClickOutcome(b) && ClickShows(b) && OtherTabCleared(b)
    {
      if !b.visible {
        return;
      }
      if b.role.ReadingTab? || b.role.GameTab? {
        TabClicked(b);
      } else if b.role.Choice? || b.role.Drop? {
        GameButtonClicked(b);
      } else {
        ColumnClicked(b);
      }
    }

    /** What `ReadingTabClicked` promises, in the terms `isClicked` is stated in. */
    twostate lemma ReadingTabOutcome()
      requires Wf()
      requires hooks == old(hooks) + [OnClickHook(readingTab)] + (if old(gameTab.toggled) then [OnSetToggledHook(gameTab)] else []) + [OnSetToggledHook(readingTab)]
      requires readingTab.toggled == !old(readingTab.toggled) && readingTab.entered
      requires readingTab.bodyColor == Lighten(if readingTab.toggled then ToggledOn else Black, HoverStep)
      requires !gameTab.toggled && gameTab.entered == old(gameTab.entered)
      requires gameTab.bodyColor == if old(gameTab.toggled) then Black else old(gameTab.bodyColor)
      requires s == ReadingSet(if old(gameTab.toggled) then GameSet(old(s), false) else old(s), readingTab.toggled)
      requires Shown(false) && !drop.visible && LinesKept()
      ensures ClickOutcome(readingTab) && ClickShows(readingTab) && OtherTabCleared(readingTab)
    {
    }

    /** What `GameTabClicked` promises, in the terms `isClicked` is stated in. */
    twostate lemma GameTabOutcome()
      requires Wf()
      requires hooks == old(hooks) + [OnClickHook(gameTab)] + (if old(readingTab.toggled) then [OnSetToggledHook(readingTab)] else []) + [OnSetToggledHook(gameTab)]
      requires gameTab.toggled == !old(gameTab.toggled) && gameTab.entered
      requires gameTab.bodyColor == Lighten(if gameTab.toggled then ToggledOn else Black, HoverStep)
      requires !readingTab.toggled && readingTab.entered == old(readingTab.entered)
      requires readingTab.bodyColor == if old(readingTab.toggled) then Black else old(readingTab.bodyColor)
      requires s == GameSet(if old(readingTab.toggled) then ReadingSet(old(s), false) else old(s), gameTab.toggled)
      requires Shown(gameTab.toggled) && !drop.visible && LinesKept() && readingTab.text == old(readingTab.text)
      ensures ClickOutcome(gameTab) && ClickShows(gameTab) && OtherTabCleared(gameTab)
    {
    }

    /** `isClicked` on a visible tab: the other tab is detoggled and back to black, its hover kept. */
    method TabClicked(b: TextBox)
      requires Valid() && b in boxes && b.visible && (b.role.ReadingTab? || b.role.GameTab?)
      modifies this`s, this`hooks, readingTab`text, drop`visible, choices`visible
      modifies Repainted(b)`toggled, Repainted(b)`bodyColor, Repainted(b)`entered
      ensures Valid() && ClickOutcome(b) && ClickShows(b) && OtherTabCleared(b)
    {
      RoleOf(b);
      if b.role.ReadingTab? {
        ReadingTabClicked();
        ReadingTabOutcome();
      } else {
        GameTabClicked();
        GameTabOutcome();
      }
    }

    /** `isClicked` on a visible box of the credits column: the header, a text line or a link; only the box itself is repainted. */
    method ColumnClicked(b: TextBox)
      requires Valid() && b in boxes && b.visible && (b.role.CreditsHeader? || b.role.Link? || b.role.Plain?)
      modifies this`hooks, lines`visible, b`toggled, b`bodyColor, b`entered
      ensures Valid() && ClickOutcome(b) && ClickShows(b)
    {
      RoleOf(b);
      if b.role.CreditsHeader? {
        HeaderClicked();
      } else if b.role.Link? {
        LinkClicked(b);
      } else {
        PlainClicked(b);
      }
    }

    /** `isClicked` on a visible answer button or the drop button: only the box itself is repainted. */
    method GameButtonClicked(b: TextBox)
      requires Valid() && b in boxes && b.visible && (b.role.Choice? || b.role.Drop?)
      modifies this`s, this`hooks, drop`visible, choices`visible, b`toggled, b`bodyColor, b`entered
      ensures Valid() && ClickOutcome(b) && ClickShows(b)
    {
      RoleOf(b);
      if b.role.Choice? {
        ChoiceClicked(b);
      } else {
        DropClicked();
      }
    }

    /**
     * One item of `handleClicked`: the item is released, then clicked when
     * it contains the pointer. An invisible item changes nothing; a visible
     * one that the pointer has left only takes the release colour.
     */
    method ReleaseItem(b: TextBox)
      requires Valid() && b in boxes
      modifies this`s, this`hooks, this`dispatched, readingTab`text, drop`visible, choices`visible, lines`visible
      modifies (set b | b in boxes)`toggled, (set b | b in boxes)`bodyColor, (set b | b in boxes)`entered
      ensures Valid()
      ensures dispatched == old(dispatched) + ItemCalls(b, old(b.ContainsPoint(mouseX, mouseY)))
      ensures !old(b.visible) ==> s == old(s) && hooks == old(hooks) && (forall k :: 0 <= k < |boxes| ==> unchanged(boxes[k]))
      ensures old(b.visible) && !old(b.ContainsPoint(mouseX, mouseY)) ==>
        && s == old(s) && hooks == old(hooks)
        && b.bodyColor == (if b.toggled then Lighten(old(b.bodyColor), PressStep) else Black)
        && b.toggled == old(b.toggled) && b.entered == old(b.entered) && b.visible
        && forall o :: o in boxes && o != b ==> unchanged(o)
      ensures old(b.visible) && old(b.ContainsPoint(mouseX, mouseY)) ==> ClickOutcome(b)
    {
      var hit := b.ContainsPoint(mouseX, mouseY);
      dispatched := dispatched + [Released(b)];
      b.IsReleased();
      if hit {
        IsClicked(b);
        Associate(old(dispatched), [Released(b)], [Clicked(b)]);
        assert [Released(b)] + [Clicked(b)] == ItemCalls(b, true);
      }
    }

    /**
     * One turn of the `handleClicked` loop, as the loop sees it: `ReleaseItem`,
     * with its promise reduced to the calls made, the hidden case, and, for
     * a shown item under the pointer, the hooks its click ran.
     */
    method ReleaseNext(b: TextBox)
      requires Valid() && b in boxes
      modifies this`s, this`hooks, this`dispatched, readingTab`text, drop`visible, choices`visible, lines`visible
      modifies (set b | b in boxes)`toggled, (set b | b in boxes)`bodyColor, (set b | b in boxes)`entered
      ensures Valid()
      ensures dispatched == old(dispatched) + ItemCalls(b, old(b.ContainsPoint(mouseX, mouseY)))
      ensures !old(b.visible) ==> s == old(s) && hooks == old(hooks) && (forall k :: 0 <= k < |boxes| ==> unchanged(boxes[k]))
      ensures old(b.visible) && old(b.ContainsPoint(mouseX, mouseY)) ==> Bracketed(old(hooks), hooks, b)
    {
      ReleaseItem(b);
      if old(b.visible) && old(b.ContainsPoint(mouseX, mouseY)) {
        BracketedBy(old(hooks), b, SideCalls(b, old(b.toggled), old(readingTab.toggled), old(gameTab.toggled)));
      }
    }

    /**
     * `handleClicked`: every recorded item is released, and clicked when it
     * still contains the pointer; then the record is emptied. The calls made
     * are exactly those `Expected` lists, in that order; when every
     * recorded item was hidden nothing else changes; and when the one
     * recorded item was shown and under the pointer, its click ran its
     * `onClick` first and its `onSetToggled` last.
     */
    method HandleClicked()
      requires Valid()
      modifies this`s, this`hooks, this`dispatched, this`pressed, readingTab`text, drop`visible, choices`visible, lines`visible
      modifies (set b | b in boxes)`toggled, (set b | b in boxes)`bodyColor, (set b | b in boxes)`entered
      ensures Valid() && pressed == []
      ensures dispatched == old(dispatched) + old(Expected(pressed, mouseX, mouseY))
      ensures (forall b :: b in old(pressed) ==> !old(b.visible)) ==> s == old(s) && hooks == old(hooks) && (forall k :: 0 <= k < |boxes| ==> unchanged(boxes[k]))
      ensures |old(pressed)| == 1 && old(pressed[0].visible) && old(pressed[0].ContainsPoint(mouseX, mouseY)) ==> Bracketed(old(hooks), hooks, old(pressed)[0])
    {
      ReleaseAll();
      pressed := [];
    }

    /** The loop of `handleClicked`, over the recorded items in their order. */
    method ReleaseAll()
      requires Valid()
      modifies this`s, this`hooks, this`dispatched, readingTab`text, drop`visible, choices`visible, lines`visible
      modifies (set b | b in boxes)`toggled, (set b | b in boxes)`bodyColor, (set b | b in boxes)`entered
      ensures Valid()
      ensures dispatched == old(dispatched) + old(Expected(pressed, mouseX, mouseY))
      ensures (forall b :: b in old(pressed) ==> !old(b.visible)) ==> s == old(s) && hooks == old(hooks) && (forall k :: 0 <= k < |boxes| ==> unchanged(boxes[k]))
      ensures |pressed| == 1 && old(pressed[0].visible) && old(pressed[0].ContainsPoint(mouseX, mouseY)) ==> Bracketed(old(hooks), hooks, pressed[0])
    {
      var items := pressed;
      ghost var hidden := forall k :: 0 <= k < |items| ==> !items[k].visible;
      ghost var single := |items| == 1 && items[0].visible && items[0].ContainsPoint(mouseX, mouseY);
      ExpectedPrefixes(items, mouseX, mouseY);
      for i := 0 to |items|
        invariant Valid()
        invariant dispatched == old(dispatched) + old(Expected(items[..i], mouseX, mouseY))
        invariant hidden ==> s == old(s) && hooks == old(hooks) && (forall k :: 0 <= k < |boxes| ==> unchanged(boxes[k]))
        invariant single ==> if i == 0 then hooks == old(hooks) && items[0].visible else Bracketed(old(hooks), hooks, items[0])
      {
        var b := items[i];
        assert b in pressed;
        if hidden {
          assert !old(b.visible) && b.visible == old(b.visible);
        }
        ghost var hit := b.ContainsPoint(mouseX, mouseY);
        assert hit == old(b.ContainsPoint(mouseX, mouseY));
        ReleaseNext(b);
        Associate(old(dispatched), old(Expected(items[..i], mouseX, mouseY)), ItemCalls(b, hit));
      }
      assert items[..|items|] == items;
    }

    /**
     * A `mousedown` and then a `mouseup` at one point, with nothing recorded
     * before: when every box under the pointer is hidden, `storePressed`
     * records only hidden boxes, `handleClicked` releases them to no effect,
     * and no box, no variable and no hook changes.
     */
    method Tap()
      requires Valid() && pressed == []
      modifies this`s, this`hooks, this`dispatched, this`pressed, this`mouseDown, this`mouseUp, readingTab`text, drop`visible, choices`visible, lines`visible
      modifies (set b | b in boxes)`toggled, (set b | b in boxes)`bodyColor, (set b | b in boxes)`entered
      ensures Valid() && pressed == [] && mouseUp && !mouseDown
      ensures (forall b :: b in boxes && old(b.ContainsPoint(mouseX, mouseY)) ==> !old(b.visible)) ==>
        s == old(s) && hooks == old(hooks) && (forall k :: 0 <= k < |boxes| ==> unchanged(boxes[k]))
    {
      ghost var quiet := forall b :: b in boxes && b.ContainsPoint(mouseX, mouseY) ==> !b.visible;
      MouseDown();
      label Pressed:
      assert s == old(s) && hooks == old(hooks);
      if quiet {
        forall k | 0 <= k < |boxes|
          ensures unchanged(boxes[k])
        {
          assert PressedAt(boxes[k], mouseX, mouseY);
        }
        forall b | b in pressed
          ensures !b.visible
        {
          assert b in old(UnderPointer(boxes, mouseX, mouseY));
        }
      }
      MouseUp();
      if quiet {
        assert s == old@Pressed(s) && hooks == old@Pressed(hooks) && unchanged@Pressed(boxes);
      }
    }

    /** `input` on a `mousedown`: `storePressed` over the drawn items, and the button recorded as down. */
    method MouseDown()
      requires Valid()
      modifies this`pressed, this`mouseDown, this`mouseUp, (set b | b in boxes)`bodyColor
      ensures Valid()
      ensures pressed == old(pressed) + old(UnderPointer(boxes, mouseX, mouseY))
      ensures forall b :: b in boxes ==> PressedAt(b, mouseX, mouseY)
      ensures mouseDown && !mouseUp
    {
      StorePressedItems();
      mouseDown, mouseUp := true, false;
    }

    /** `storePressed` over the drawn items: the boxes under the pointer are pressed and pushed onto `pressedItems`, in walk order. */
    method StorePressedItems()
      requires Valid()
      modifies this`pressed, (set b | b in boxes)`bodyColor
      ensures Valid()
      ensures pressed == old(pressed) + old(UnderPointer(boxes, mouseX, mouseY))
      ensures forall b :: b in boxes ==> PressedAt(b, mouseX, mouseY)
    {
      var hits := StorePressed(scene, mouseX, mouseY);
      pressed := pressed + hits;
    }

    /** `input` on a `mouseup`: `handleClicked`, and the button recorded as up. */
    method MouseUp()
      requires Valid()
      modifies this`s, this`hooks, this`dispatched, this`pressed, this`mouseDown, this`mouseUp, readingTab`text, drop`visible, choices`visible, lines`visible
      modifies (set b | b in boxes)`toggled, (set b | b in boxes)`bodyColor, (set b | b in boxes)`entered
      ensures Valid() && pressed == [] && mouseUp && !mouseDown
      ensures dispatched == old(dispatched) + old(Expected(pressed, mouseX, mouseY))
      ensures (forall b :: b in old(pressed) ==> !old(b.visible)) ==> s == old(s) && hooks == old(hooks) && (forall k :: 0 <= k < |boxes| ==> unchanged(boxes[k]))
      ensures |old(pressed)| == 1 && old(pressed[0].visible) && old(pressed[0].ContainsPoint(mouseX, mouseY)) ==> Bracketed(old(hooks), hooks, old(pressed)[0])
    {
      HandleClicked();
      mouseUp, mouseDown := true, false;
    }

    /** `input` on a `mousemove`: `handleHovered` over the drawn items. */
    method MouseMove()
      requires Valid()
      modifies (set b | b in boxes)`entered, (set b | b in boxes)`bodyColor
      ensures Valid()
      ensures forall b :: b in boxes ==> Hovered(b, mouseX, mouseY) && KeptByHover(b)
      ensures forall b :: b in boxes && b.visible ==> b.entered == old(b.ContainsPoint(mouseX, mouseY))
    {
      Covered();
      HandleHovered(scene, mouseX, mouseY);
    }

    /**
     * `input`: a press records the items under the pointer, a release
     * dispatches them, a move fires the hover edges, and the wheel scrolls
     * the reading by 40 within its bounds; any other event does nothing.
     */
    method Input(e: Event)
      requires Valid()
      modifies this`s, this`hooks, this`dispatched, this`pressed, this`mouseDown, this`mouseUp, readingTab`text, drop`visible, choices`visible, lines`visible
      modifies (set b | b in boxes)`toggled, (set b | b in boxes)`bodyColor, (set b | b in boxes)`entered
      ensures Valid()
      ensures e.MouseDown? ==>
        && pressed == old(pressed) + old(UnderPointer(boxes, mouseX, mouseY)) && mouseDown && !mouseUp
        && s == old(s) && (forall b :: b in boxes ==> PressedAt(b, mouseX, mouseY))
      ensures e.MouseUp? ==>
        && pressed == [] && mouseUp && !mouseDown
        && dispatched == old(dispatched) + old(Expected(pressed, mouseX, mouseY))
      ensures e.MouseUp? && (forall b :: b in old(pressed) ==> !old(b.visible)) ==> s == old(s) && (forall k :: 0 <= k < |boxes| ==> unchanged(boxes[k]))
      ensures e.MouseMove? ==>
        && s == old(s) && pressed == old(pressed)
        && (forall b :: b in boxes ==> Hovered(b, mouseX, mouseY) && KeptByHover(b))
        && (forall b :: b in boxes && b.visible ==> b.entered == old(b.ContainsPoint(mouseX, mouseY)))
      ensures e.ScrollUp? ==> s == old(s).(scrollY := ScrolledUp(old(s.scrollY)))
      ensures e.ScrollDown? ==> s == old(s).(scrollY := ScrolledDown(old(s.scrollY), Limit(readingHeight, canvasHeight, firstLineY)))
      ensures e.OtherEvent? ==> s == old(s)
      ensures e.ScrollUp? || e.ScrollDown? || e.OtherEvent? ==>
        pressed == old(pressed) && mouseDown == old(mouseDown) && mouseUp == old(mouseUp) && unchanged(boxes)
      ensures !e.MouseUp? ==> hooks == old(hooks) && dispatched == old(dispatched)
    {
      if e.MouseDown? {
        MouseDown();
      } else if e.MouseUp? {
        MouseUp();
      } else if e.MouseMove? {
        MouseMove();
      } else if e.ScrollUp? {
        ScrollStaysInBounds(s.scrollY, Limit(readingHeight, canvasHeight, firstLineY));
        s := s.(scrollY := ScrolledUp(s.scrollY));
      } else if e.ScrollDown? {
        ScrollStaysInBounds(s.scrollY, Limit(readingHeight, canvasHeight, firstLineY));
        s := s.(scrollY := ScrolledDown(s.scrollY, Limit(readingHeight, canvasHeight, firstLineY)));
      }
    }

    /** The `mousemove` listener: the pointer moves to (`x`, `y`) and `input` fires the hover edges there (the walk reads only that point, so it runs first here). */
    method PointerMoved(x: real, y: real)
      requires Valid()
      modifies this`mouseX, this`mouseY, (set b | b in boxes)`entered, (set b | b in boxes)`bodyColor
      ensures Valid()
      ensures mouseX == x && mouseY == y
      ensures forall b :: b in boxes ==> Hovered(b, x, y) && KeptByHover(b)
      ensures forall b :: b in boxes && b.visible ==> b.entered == old(b.ContainsPoint(x, y))
    {
      HandleHovered(scene, x, y);
      mouseX, mouseY := x, y;
    }

    /**
     * The part of `process` that shows the drop button: while the balls are
     * drawn towards a target other than the origin, it appears once they
     * have risen far enough, a test on the physics positions that
     * `gathered` stands for.
     */
    method Gather(gathered: bool)
      requires Valid()
      modifies drop`visible
      ensures Valid()
      ensures drop.visible == (old(drop.visible) || (s.ballGame && (s.targetX != 0.0 || s.targetY != 0.0) && gathered))
    {
      if s.ballGame && (s.targetX != 0.0 || s.targetY != 0.0) && gathered {
        drop.visible := true;
      }
    }

    /**
     * The `k`-th waiting callback runs and leaves the list: `checkGameBall`,
     * with `hits` the balls inside the game ball, or the continuation it
     * scheduled, which during a game shows the answer buttons again before
     * asking the next question (which hides them once all are answered).
     */
    method Fire(k: nat, hits: set<nat>)
      requires Valid() && k < |s.timers|
      modifies this`s, choices`visible
      ensures Valid()
      ensures s == Fired(old(s), k, hits)
      ensures old(s.gamePlaying) && old(s.timers[k]).FinishRound? ==> Shown(!AllAnswered(s))
      ensures !(old(s.gamePlaying) && old(s.timers[k]).FinishRound?) ==> ButtonsKept()
    {
      var task := s.timers[k];
      s := s.(timers := Without(s.timers, k));
      match task {
        case CheckGameBall => ScoreRound(hits);
        case FinishRound(score) => NextRound(score);
      }
    }

    /** `checkGameBall`: during a game, physics stops and the score loop runs over the balls, then the continuation is scheduled with the score. */
    method ScoreRound(hits: set<nat>)
      requires Valid()
      modifies this`s
      ensures Valid()
      ensures s == BallChecked(old(s), hits)
    {
      if !s.gamePlaying {
        return;
      }
      var shown, score, collected := TallyRound(BallLabels(), hits, s.answerCorrect, Value(s.ballText));
      assert shown == RoundTally(hits, s.answerCorrect);
      s := s.(physicsMode := 1, ballText := Change(shown, s.answerCorrect), timers := s.timers + [FinishRound(score)]);
      assert s == BallChecked(old(s), hits);
      assert s.readingShown == old(s.readingShown) && s.gamePlaying == old(s.gamePlaying) && s.ballGame == old(s.ballGame) && s.scrollY == old(s.scrollY);
    }

    /** The continuation of `checkGameBall`: during a game, physics resumes, the game ball shows the score, the answer buttons show again, the index moves on after a right answer, and the next question is asked. */
    method NextRound(score: int)
      requires Valid()
      modifies this`s, choices`visible
      ensures Valid()
      ensures s == Finished(old(s), score)
      ensures old(s.gamePlaying) ==> Shown(!AllAnswered(s))
      ensures !old(s.gamePlaying) ==> ButtonsKept()
    {
      if !s.gamePlaying {
        return;
      }
      s := s.(physicsMode := 0, ballText := Count(score));
      SetVisible(choices, true);
      s := s.(questionIndex := Advanced(s));
      AskNextQuestion();
    }
  }
}
