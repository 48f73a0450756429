/**
 * The Hideo compositor's window management: rectangle hit tests, the
 * window stack (topmost last), cursor clamping, button edge detection and
 * the focus, raise and drag bookkeeping. Drawing is not modelled.
 */
module Hideo {

  /** Height of a window's title bar, the strip a window is grabbed by. */
  const HeaderHeight: int := 32

  function Min(a: int, b: int): int { if a <= b then a else b }

  function Max(a: int, b: int): int { if a >= b then a else b }

  /**
   * check_colision: two rectangles, each given by a corner and a size,
   * overlap. Against a 1x1 rectangle it is a point-in-rectangle test.
   */
  function CheckColision(x0: int, y0: int, w0: int, h0: int, x1: int, y1: int, w1: int, h1: int): (r: bool)
    ensures w1 == 1 && h1 == 1 ==> (r <==> x0 <= x1 < x0 + w0 && y0 <= y1 < y0 + h0)
  {
    x0 < x1 + w1 && x1 < x0 + w0 && y0 < y1 + h1 && y1 < y0 + h0
  }

  /** Overlap does not depend on which rectangle comes first. */
  lemma CheckColisionSymmetric(x0: int, y0: int, w0: int, h0: int, x1: int, y1: int, w1: int, h1: int)
    ensures CheckColision(x0, y0, w0, h0, x1, y1, w1, h1) == CheckColision(x1, y1, w1, h1, x0, y0, w0, h0)
  {
  }

  class Window {
    const title: string
    var x: int
    var y: int
    const width: int
    const height: int

    constructor (title: string, x: int, y: int, width: int, height: int)
      ensures this.title == title && this.x == x && this.y == y
      ensures this.width == width && this.height == height
    {
      this.title := title;
      this.x := x;
      this.y := y;
      this.width := width;
      this.height := height;
    }
  }

  /** The point lies in the window, or only in its title bar when `header` is set. */
  predicate Contains(win: Window, px: int, py: int, header: bool)
    reads win
  {
    CheckColision(win.x, win.y, win.width, if header then HeaderHeight else win.height, px, py, 1, 1)
  }

  /** The last window of the stack, the topmost one, that contains the point; null if none does. */
  function TopmostAt(ws: seq<Window>, px: int, py: int, header: bool): (r: Window?)
    reads ws
    ensures r == null <==> forall k :: 0 <= k < |ws| ==> !Contains(ws[k], px, py, header)
    ensures r != null ==> r in ws && Contains(r, px, py, header)
    ensures r != null ==> exists k :: 0 <= k < |ws| && ws[k] == r &&
                                     forall j :: k < j < |ws| ==> !Contains(ws[j], px, py, header)
    decreases |ws|
  {
    if ws == [] then null
    else if Contains(ws[|ws| - 1], px, py, header) then ws[|ws| - 1]
    else TopmostAt(ws[..|ws| - 1], px, py, header)
  }

  /** Cursor coordinate clamping: max(min(v, size - 1), 0). */
  function Clamp(v: int, size: int): (r: int)
    ensures size >= 1 ==> 0 <= r <= size - 1
    ensures 0 <= v <= size - 1 ==> r == v
    ensures size >= 1 && v < 0 ==> r == 0
    ensures size >= 1 && v > size - 1 ==> r == size - 1
    ensures size < 1 ==> r == 0
  {
    Max(Min(v, size - 1), 0)
  }

  datatype ButtonState = Up | Down | Pressed | Released {

    /** The button is held now. */
    predicate IsHeld() {
      Down? || Pressed?
    }

    /** The button was held at the previous update. */
    predicate WasHeld() {
      Down? || Released?
    }
  }

  /**
   * A button's state from its previous and current level. The four states
   * are the four combinations: both levels can be read back from the state.
   */
  function ButtonEdge(wasDown: bool, isDown: bool): (s: ButtonState)
    ensures s.IsHeld() == isDown && s.WasHeld() == wasDown
  {
    if isDown && !wasDown then Pressed
    else if !isDown && wasDown then Released
    else if isDown then Down
    else Up
  }

  /** Every state arises from exactly the levels it reports. */
  lemma ButtonEdgeOnto(s: ButtonState)
    ensures ButtonEdge(s.WasHeld(), s.IsHeld()) == s
  {
  }

  /** Pressed and Released are the two edges, and never hold at once. */
  lemma ButtonEdges(wasDown: bool, isDown: bool)
    ensures var s := ButtonEdge(wasDown, isDown);
      && (s == Pressed <==> isDown && !wasDown)
      && (s == Released <==> !isDown && wasDown)
      && (s == Down <==> isDown && wasDown)
      && (s == Up <==> !isDown && !wasDown)
      && !(s == Pressed && s == Released)
  {
  }

  /** The mouse as the device reports it: position and the three button levels. */
  datatype MouseState = MouseState(x: int, y: int, left: bool, right: bool, middle: bool)

  datatype Cursor = Cursor(x: int, y: int, leftbtn: ButtonState, rightbtn: ButtonState, middlebtn: ButtonState)

  predicate Distinct<T(==)>(s: seq<T>) {
    forall i, j :: 0 <= i < j < |s| ==> s[i] != s[j]
  }

  /** list_remove: drop the first occurrence of x. */
  function RemoveFirst<T(==)>(s: seq<T>, x: T): (r: seq<T>)
    ensures |r| == if x in s then |s| - 1 else |s|
    ensures x !in s ==> r == s
  {
    if s == [] then []
    else if s[0] == x then s[1..]
    else [s[0]] + RemoveFirst(s[1..], x)
  }

  lemma {:induction false} RemoveFirstAt<T>(s: seq<T>, x: T, k: nat)
    requires k < |s| && s[k] == x && x !in s[..k]
    ensures RemoveFirst(s, x) == s[..k] + s[k + 1..]
  {
    if k > 0 {
      assert s[0] != x by { assert s[0] == s[..k][0]; }
      assert s[1..][..k - 1] == s[1..k];
      RemoveFirstAt(s[1..], x, k - 1);
      assert s[1..][k..] == s[k + 1..];
      assert [s[0]] + s[1..k] == s[..k];
    }
  }

  /** Dropping one element of a duplicate-free sequence leaves it duplicate-free and without that element. */
  lemma DistinctWithout<T>(s: seq<T>, k: nat)
    requires Distinct(s) && k < |s|
    ensures Distinct(s[..k] + s[k + 1..]) && s[k] !in s[..k] + s[k + 1..]
  {
    var rest := s[..k] + s[k + 1..];
    assert forall i :: 0 <= i < |rest| ==> rest[i] == s[if i < k then i else i + 1];
  }

  /** Appending an element not yet present keeps a sequence duplicate-free. */
  lemma DistinctAppend<T>(t: seq<T>, x: T)
    requires Distinct(t) && x !in t
    ensures Distinct(t + [x])
  {
    var r := t + [x];
    forall i, j | 0 <= i < j < |r| ensures r[i] != r[j] {
      assert r[i] == t[i];
    }
  }

  /**
   * Raising an element of a duplicate-free sequence (list_remove, then
   * list_pushback) puts it last, keeps the others in their order and leaves
   * a duplicate-free permutation of the old sequence.
   */
  lemma RaiseToTop<T>(s: seq<T>, x: T, k: nat)
    requires Distinct(s) && k < |s| && s[k] == x
    ensures RemoveFirst(s, x) == s[..k] + s[k + 1..]
    ensures multiset(RemoveFirst(s, x) + [x]) == multiset(s)
    ensures Distinct(RemoveFirst(s, x) + [x])
  {
    var before, after := s[..k], s[k + 1..];
    assert x !in before by {
      assert forall i :: 0 <= i < k ==> before[i] == s[i];
    }
    RemoveFirstAt(s, x, k);
    DistinctWithout(s, k);
    DistinctAppend(before + after, x);
    assert s == before + [x] + after;
    calc {
      multiset(before + after + [x]);
      multiset(before) + multiset(after) + multiset([x]);
      multiset(before + [x] + after);
    }
  }

  /** The compositor's state: screen size, window stack, focus and drag. */
  class Context {
    const width: nat
    const height: nat
    var windows: seq<Window>
    var focus: Window?
    var dragged: Window?
    var offx: int
    var offy: int

    /** The stack holds no window twice; focus and drag target are on it. */
    ghost predicate Valid()
      reads this
    {
      && Distinct(windows)
      && (focus == null || focus in windows)
      && (dragged == null || dragged in windows)
    }

    /** hideo_ctor: an empty stack and no focus on a screen of the given size. */
    constructor (width: nat, height: nat)
      ensures Valid()
      ensures this.width == width && this.height == height
      ensures windows == [] && focus == null && dragged == null
    {
      this.width := width;
      this.height := height;
      windows := [];
      focus := null;
      dragged := null;
      offx, offy := 0, 0;
    }

    /** hideo_create_window: the new window goes on top of the stack and takes focus. */
    method CreateWindow(title: string, x: int, y: int, w: int, h: int) returns (win: Window)
      requires Valid()
      modifies this
      ensures Valid() && fresh(win)
      ensures win.title == title && win.x == x && win.y == y && win.width == w && win.height == h
      ensures windows == old(windows) + [win] && focus == win
      ensures dragged == old(dragged) && offx == old(offx) && offy == old(offy)
    {
      win := new Window(title, x, y, w, h);
      windows := windows + [win];
      focus := win;
    }

    /** hideo_window_update: the dragged window follows the cursor; any other window stays. */
    method WindowUpdate(w: Window, c: Cursor)
      modifies w
      ensures dragged == w ==> w.x == c.x + offx && w.y == c.y + offy
      ensures dragged != w ==> unchanged(w)
    {
      if dragged == w {
        dragged.x := c.x + offx;
        dragged.y := c.y + offy;
      }
    }

    /** One update of every window in stack order, as the compositor does each frame. */
    method UpdateWindows(c: Cursor)
      requires Valid()
      modifies windows
      ensures forall k :: 0 <= k < |windows| && windows[k] != dragged ==>
        windows[k].x == old(windows[k].x) && windows[k].y == old(windows[k].y)
      ensures dragged != null ==> dragged.x == c.x + offx && dragged.y == c.y + offy
    {
      var i := 0;
      while i < |windows|
        invariant 0 <= i <= |windows|
        invariant forall k :: 0 <= k < |windows| && windows[k] != dragged ==>
          windows[k].x == old(windows[k].x) && windows[k].y == old(windows[k].y)
        invariant dragged != null && dragged in windows[..i] ==> dragged.x == c.x + offx && dragged.y == c.y + offy
      {
        WindowUpdate(windows[i], c);
        assert windows[..i + 1] == windows[..i] + [windows[i]];
        i := i + 1;
      }
      assert windows[..i] == windows;
    }

    /** hideo_window_at: a forward scan that keeps the last window containing the point. */
    method WindowAt(x: int, y: int, header: bool) returns (r: Window?)
      ensures r == TopmostAt(windows, x, y, header)
    {
      r := null;
      var i := 0;
      while i < |windows|
        invariant 0 <= i <= |windows|
        invariant r == TopmostAt(windows[..i], x, y, header)
      {
        assert windows[..i + 1][..i] == windows[..i];
        if Contains(windows[i], x, y, header) {
          r := windows[i];
        }
        i := i + 1;
      }
      assert windows[..i] == windows;
    }

    /**
     * The press branch of hideo_cursor_update: the window under the cursor
     * takes focus, moves to the top of the stack and becomes the drag target,
     * with the offsets that keep it where it is relative to the cursor.
     */
    method Grab(win: Window, c: Cursor)
      requires Valid() && win in windows
      modifies this
      ensures Valid()
      ensures focus == win && windows == RemoveFirst(old(windows), win) + [win]
      ensures dragged == win && win.x == c.x + offx && win.y == c.y + offy
    {
      focus := win;
      var k :| 0 <= k < |windows| && windows[k] == win;
      RaiseToTop(windows, win, k);
      windows := RemoveFirst(windows, win);
      windows := windows + [win];

      dragged := win;
      offx := win.x - c.x;
      offy := win.y - c.y;
    }

    /**
     * hideo_cursor_update for one sample `raw` of the mouse, `prev` being the
     * sample of the previous update; returns the cursor and the clamped
     * sample, which is the next update's `prev`. A left press on a title bar
     * focuses that window, raises it and starts dragging it; a left release
     * ends any drag.
     */
    method CursorUpdate(prev: MouseState, raw: MouseState) returns (c: Cursor, next: MouseState)
      requires Valid()
      modifies this
      ensures Valid()
      ensures next == raw.(x := Clamp(raw.x, width), y := Clamp(raw.y, height))
      ensures c == Cursor(next.x, next.y, ButtonEdge(prev.left, next.left),
                          ButtonEdge(prev.right, next.right), ButtonEdge(prev.middle, next.middle))
      ensures var win := TopmostAt(old(windows), c.x, c.y, true);
        if win != null && c.leftbtn == Pressed then
          (var top: Window := win;
           && focus == top
           && windows == RemoveFirst(old(windows), top) + [top]
           && dragged == top
           && top.x == c.x + offx && top.y == c.y + offy)
        else
          (&& focus == old(focus) && windows == old(windows)
           && offx == old(offx) && offy == old(offy)
           && dragged == (if c.leftbtn == Released then null else old(dragged)))
    {
      next := raw.(x := Clamp(raw.x, width), y := Clamp(raw.y, height));
      c := Cursor(next.x, next.y, ButtonEdge(prev.left, next.left),
                  ButtonEdge(prev.right, next.right), ButtonEdge(prev.middle, next.middle));

      var win := WindowAt(c.x, c.y, true);
      if win != null {
        if c.leftbtn == Pressed {
          Grab(win, c);
        }
      }

      if dragged != null && c.leftbtn == Released {
        dragged := null;
      }
    }
  }
}
