/** The window manager. Windows carry a z value drawn from a counter; what the user sees is a
    most-recently-used stack. The machine with the counter refines the machine with the stack. */
module Windows {
  import opened Text

  datatype AppDefinition = AppDefinition(id: string, size: Option<(nat, nat)>)

  datatype Window = Window(
    id: string, appId: string, x: int, y: int, w: nat, h: nat, z: int, minimized: bool, maximized: bool)

  /** `windowSeq` counts the windows ever opened. */
  datatype Desk = Desk(windows: seq<Window>, topZ: int, windowSeq: nat)

  datatype Event =
    | Open(app: AppDefinition, seen: int)  // by a handler of a render that saw this counter
    | Focus(id: string)
    | Close(id: string)
    | Minimize(id: string)
    | ToggleMaximize(id: string)
    | Move(id: string, x: int, y: int)
    | Resize(id: string, w: nat, h: nat)

  const START := Desk([], 1, 0)

  // ---------------------------------------------------------------- the counter machine

  /** `ws.map((w) => w.id === id ? f(w) : w)`. */
  function Updated(ws: seq<Window>, id: string, f: Window -> Window): seq<Window> {
    seq(|ws|, i requires 0 <= i < |ws| => if ws[i].id == id then f(ws[i]) else ws[i])
  }

  /** `ws.filter((w) => w.id !== id)`. */
  function Without(ws: seq<Window>, id: string): seq<Window> {
    if ws == [] then []
    else (if ws[0].id == id then [] else [ws[0]]) + Without(ws[1..], id)
  }

  function FindApp(ws: seq<Window>, appId: string): (r: Option<string>)
    ensures r.Some? ==> exists w :: w in ws && w.appId == appId && w.id == r.value
    ensures r.None? ==> forall w :: w in ws ==> w.appId != appId
  {
    if ws == [] then None
    else if ws[0].appId == appId then Some(ws[0].id)
    else FindApp(ws[1..], appId)
  }

  function Raised(z: int): Window -> Window { (w: Window) => w.(z := z, minimized := false) }

  const HIDDEN: Window -> Window := (w: Window) => w.(minimized := true)

  const MAXIMIZE_TOGGLED: Window -> Window := (w: Window) => w.(maximized := !w.maximized)

  function Placed(x: int, y: int): Window -> Window { (w: Window) => w.(x := x, y := y) }

  function Sized(width: nat, height: nat): Window -> Window { (w: Window) => w.(w := width, h := height) }

  function WindowId(n: nat): string { "win-" + Print(n, 10) }

  function NewWindow(app: AppDefinition, windowSeq: nat, z: int): Window {
    var offset := windowSeq % 6 * 28;
    var (w, h) := if app.size.Some? then app.size.value else (560, 420);
    Window(WindowId(windowSeq + 1), app.id, 80 + offset, 64 + offset, w, h, z, false, false)
  }

  /** `openApp`, run with the value of `topZ` that the calling render saw. */
  function OpenSeeing(d: Desk, app: AppDefinition, seen: int): Desk {
    var next := seen + 1;
    match FindApp(d.windows, app.id)
    case Some(id) => d.(windows := Updated(d.windows, id, Raised(next)), topZ := next)
    case None =>
      Desk(d.windows + [NewWindow(app, d.windowSeq, next)], next, d.windowSeq + 1)
  }

  function Next(d: Desk, e: Event): Desk {
    match e
    case Open(app, seen) => OpenSeeing(d, app, seen)
    case Focus(id) => d.(windows := Updated(d.windows, id, Raised(d.topZ + 1)), topZ := d.topZ + 1)
    case Close(id) => d.(windows := Without(d.windows, id))
    case Minimize(id) => d.(windows := Updated(d.windows, id, HIDDEN))
    case ToggleMaximize(id) => d.(windows := Updated(d.windows, id, MAXIMIZE_TOGGLED))
    case Move(id, x, y) => d.(windows := Updated(d.windows, id, Placed(x, y)))
    case Resize(id, width, height) => d.(windows := Updated(d.windows, id, Sized(width, height)))
  }

  function Run(events: seq<Event>): Desk {
    if events == [] then START else Next(Run(events[..|events| - 1]), events[|events| - 1])
  }

  /** `visible.reduce((a, b) => (a.z >= b.z ? a : b))` over the windows not minimized. */
  function Highest(ws: seq<Window>): Option<Window> {
    if ws == [] then None
    else
      var best, w := Highest(ws[..|ws| - 1]), ws[|ws| - 1];
      if w.minimized then best
      else if best.Some? && best.value.z >= w.z then best
      else Some(w)
  }

  function ActiveId(ws: seq<Window>): Option<string> {
    match Highest(ws) case Some(w) => Some(w.id) case None => None
  }

  class WindowManager {
    var windows: seq<Window>
    var topZ: int
    var windowSeq: nat

    function View(): Desk
      reads this
    {
      Desk(windows, topZ, windowSeq)
    }

    constructor ()
      ensures View() == START
    {
      windows, topZ, windowSeq := [], 1, 0;
    }

    /** `seen` is the counter in the closure of the handler. */
    method OpenApp(app: AppDefinition, seen: int)
      modifies this
      ensures View() == Next(old(View()), Open(app, seen))
    {
      var existing := FindApp(windows, app.id);
      var next := seen + 1;
      topZ := next;
      if existing.Some? {
        windows := Updated(windows, existing.value, Raised(next));
        return;
      }
      var offset := windowSeq % 6 * 28;
      windowSeq := windowSeq + 1;
      var (w, h) := if app.size.Some? then app.size.value else (560, 420);
      var win := Window(WindowId(windowSeq), app.id, 80 + offset, 64 + offset, w, h, next, false, false);
      windows := windows + [win];
    }

    method FocusWindow(id: string)
      modifies this
      ensures View() == Next(old(View()), Focus(id))
    {
      topZ := topZ + 1;
      windows := Updated(windows, id, Raised(topZ));
    }

    method CloseWindow(id: string)
      modifies this
      ensures View() == Next(old(View()), Close(id))
    {
      windows := Without(windows, id);
    }

    method MinimizeWindow(id: string)
      modifies this
      ensures View() == Next(old(View()), Minimize(id))
    {
      windows := Updated(windows, id, HIDDEN);
    }

    method ToggleMaximizeWindow(id: string)
      modifies this
      ensures View() == Next(old(View()), ToggleMaximize(id))
    {
      windows := Updated(windows, id, MAXIMIZE_TOGGLED);
    }

    method MoveWindow(id: string, x: int, y: int)
      modifies this
      ensures View() == Next(old(View()), Move(id, x, y))
    {
      windows := Updated(windows, id, Placed(x, y));
    }

    method ResizeWindow(id: string, w: nat, h: nat)
      modifies this
      ensures View() == Next(old(View()), Resize(id, w, h))
    {
      windows := Updated(windows, id, Sized(w, h));
    }
  }

  // ---------------------------------------------------------------- the stack machine

  datatype Item = Item(id: string, appId: string, minimized: bool)

  /** Least recently used first. */
  type Stack = seq<Item>

  function Drop(stack: Stack, id: string): Stack {
    if stack == [] then []
    else (if stack[0].id == id then [] else [stack[0]]) + Drop(stack[1..], id)
  }

  function Held(stack: Stack, id: string): Option<Item> {
    if stack == [] then None else if stack[0].id == id then Some(stack[0]) else Held(stack[1..], id)
  }

  function HeldApp(stack: Stack, appId: string): Option<Item> {
    if stack == [] then None else if stack[0].appId == appId then Some(stack[0]) else HeldApp(stack[1..], appId)
  }

  /** To the top, and shown. */
  function Raise(stack: Stack, id: string): Stack {
    match Held(stack, id)
    case Some(item) => Drop(stack, id) + [item.(minimized := false)]
    case None => stack
  }

  function Hide(stack: Stack, id: string): Stack {
    seq(|stack|, i requires 0 <= i < |stack| => if stack[i].id == id then stack[i].(minimized := true) else stack[i])
  }

  /** `newId` is the id a new window gets. */
  function NextStack(stack: Stack, e: Event, newId: string): Stack {
    match e
    case Open(app, _) =>
      (match HeldApp(stack, app.id)
       case Some(item) => Raise(stack, item.id)
       case None => stack + [Item(newId, app.id, false)])
    case Focus(id) => Raise(stack, id)
    case Close(id) => Drop(stack, id)
    case Minimize(id) => Hide(stack, id)
    case _ => stack
  }

  /** The most recently used item that is not minimized. */
  function Top(stack: Stack): Option<string> {
    if stack == [] then None
    else if stack[|stack| - 1].minimized then Top(stack[..|stack| - 1])
    else Some(stack[|stack| - 1].id)
  }

  function RunStack(events: seq<Event>): Stack {
    if events == [] then []
    else
      var front := events[..|events| - 1];
      NextStack(RunStack(front), events[|events| - 1], WindowId(Run(front).windowSeq + 1))
  }

  // ---------------------------------------------------------------- refinement

  function ItemOf(w: Window): Item { Item(w.id, w.appId, w.minimized) }

  function Items(ws: seq<Window>): Stack {
    seq(|ws|, i requires 0 <= i < |ws| => ItemOf(ws[i]))
  }

  predicate Lower(v: Window, w: Window) { v.z < w.z }

  predicate Ascending(s: seq<Window>) { forall i, j :: 0 <= i < j < |s| ==> Lower(s[i], s[j]) }

  /** `s` lists the windows `ws` by increasing z. */
  ghost predicate ByZ(s: seq<Window>, ws: seq<Window>) {
    && Ascending(s)
    && (forall w :: w in s <==> w in ws)
  }

  /** Sorting by z has only one result. */
  lemma {:induction false} ByZUnique(s: seq<Window>, t: seq<Window>, ws: seq<Window>)
    requires ByZ(s, ws) && ByZ(t, ws)
    ensures s == t
  {
    SortedUnique(s, t);
  }

  lemma {:induction false} SortedUnique(s: seq<Window>, t: seq<Window>)
    requires Ascending(s)
    requires Ascending(t)
    requires forall w :: w in s <==> w in t
    ensures s == t
  {
    assert |s| > 0 ==> s[0] in t;
    assert |t| > 0 ==> t[0] in s;
    if |s| > 0 {
      var a, b := s[|s| - 1], t[|t| - 1];
      assert a in t && b in s;
      assert a == b;
      var s', t' := s[..|s| - 1], t[..|t| - 1];
      forall w ensures w in s' <==> w in t' {
        FrontMember(s, w);
        FrontMember(t, w);
      }
      SortedUnique(s', t');
      assert s == s' + [a] && t == t' + [b];
    }
  }

  lemma FrontMember(s: seq<Window>, w: Window)
    requires Ascending(s) && s != []
    ensures w in s[..|s| - 1] <==> w in s && w != s[|s| - 1]
  {
    var front, last := s[..|s| - 1], s[|s| - 1];
    assert s == front + [last];
    assert last !in front by {
      forall i | 0 <= i < |front| ensures front[i] != last { assert Lower(s[i], last); }
    }
  }

  ghost predicate Invariant(d: Desk) {
    && Distinct(d.windows)
    && (forall i :: 0 <= i < |d.windows| ==> d.windows[i].z <= d.topZ)
    && (forall i :: 0 <= i < |d.windows| ==> IssuedId(d.windows[i].id, d.windowSeq))
  }

  predicate Differ(v: Window, w: Window) { v.id != w.id && v.appId != w.appId && v.z != w.z }

  predicate Distinct(ws: seq<Window>) { forall i, j :: 0 <= i < j < |ws| ==> Differ(ws[i], ws[j]) }

  ghost predicate IssuedId(id: string, windowSeq: nat) {
    exists n :: 1 <= n <= windowSeq && id == WindowId(n)
  }

  /** Ordered by z, the windows are the stack. */
  ghost predicate Refines(d: Desk, stack: Stack) {
    exists s :: ByZ(s, d.windows) && Items(s) == stack
  }

  lemma FreshId(d: Desk)
    requires Invariant(d)
    ensures forall w :: w in d.windows ==> w.id != WindowId(d.windowSeq + 1)
  {
    forall w | w in d.windows ensures w.id != WindowId(d.windowSeq + 1) {
      var i :| 0 <= i < |d.windows| && d.windows[i] == w;
      assert IssuedId(w.id, d.windowSeq);
      var n :| 1 <= n <= d.windowSeq && w.id == WindowId(n);
      if WindowId(n) == WindowId(d.windowSeq + 1) {
        assert WindowId(n)[4..] == Print(n, 10) && WindowId(d.windowSeq + 1)[4..] == Print(d.windowSeq + 1, 10);
        PrintInjective(n, d.windowSeq + 1, 10);
      }
    }
  }

  lemma {:induction false} WithoutSpec(ws: seq<Window>, id: string)
    ensures forall w :: w in Without(ws, id) <==> w in ws && w.id != id
    decreases |ws|
  {
    if ws != [] {
      WithoutSpec(ws[1..], id);
    }
  }

  lemma {:induction false} WithoutItems(ws: seq<Window>, id: string)
    ensures Items(Without(ws, id)) == Drop(Items(ws), id)
    decreases |ws|
  {
    if ws != [] {
      WithoutItems(ws[1..], id);
      assert Items(ws)[1..] == Items(ws[1..]);
    }
  }

  /** Filtering keeps any order between the windows that stay. */
  lemma {:induction false} WithoutOrder(ws: seq<Window>, id: string)
    requires Ascending(ws)
    ensures Ascending(Without(ws, id))
    decreases |ws|
  {
    if ws != [] {
      WithoutOrder(ws[1..], id);
      WithoutSpec(ws[1..], id);
      var rest := Without(ws[1..], id);
      forall k | 0 <= k < |rest| ensures Lower(ws[0], rest[k]) {
        assert rest[k] in ws[1..];
      }
    }
  }

  lemma {:induction false} HeldSpec(s: seq<Window>, id: string)
    requires forall i, j :: 0 <= i < j < |s| ==> s[i].id != s[j].id
    ensures Held(Items(s), id).None? ==> forall w :: w in s ==> w.id != id
    ensures forall w :: w in s && w.id == id ==> Held(Items(s), id) == Some(ItemOf(w))
    decreases |s|
  {
    if s != [] {
      assert Items(s)[1..] == Items(s[1..]);
      HeldSpec(s[1..], id);
      assert s == [s[0]] + s[1..];
    }
  }

  lemma {:induction false} HeldAppSpec(s: seq<Window>, appId: string)
    requires forall i, j :: 0 <= i < j < |s| ==> s[i].appId != s[j].appId
    ensures HeldApp(Items(s), appId).None? ==> forall w :: w in s ==> w.appId != appId
    ensures forall w :: w in s && w.appId == appId ==> HeldApp(Items(s), appId) == Some(ItemOf(w))
    decreases |s|
  {
    if s != [] {
      assert Items(s)[1..] == Items(s[1..]);
      HeldAppSpec(s[1..], appId);
      assert s == [s[0]] + s[1..];
    }
  }

  lemma UpdatedSpec(ws: seq<Window>, id: string, f: Window -> Window)
    ensures forall w :: w in ws && w.id != id ==> w in Updated(ws, id, f)
    ensures forall w :: w in ws && w.id == id ==> f(w) in Updated(ws, id, f)
    ensures forall v :: v in Updated(ws, id, f) ==> (v in ws && v.id != id) || exists w :: w in ws && w.id == id && v == f(w)
  {
    forall w | w in ws ensures (if w.id == id then f(w) else w) in Updated(ws, id, f) {
      var i :| 0 <= i < |ws| && ws[i] == w;
      assert Updated(ws, id, f)[i] == if w.id == id then f(w) else w;
    }
    forall v | v in Updated(ws, id, f)
      ensures (v in ws && v.id != id) || exists w :: w in ws && w.id == id && v == f(w)
    {
      var i :| 0 <= i < |ws| && Updated(ws, id, f)[i] == v;
      assert ws[i] in ws;
    }
  }

  /** Distinct windows have distinct ids, apps and z values. */
  lemma OrderedDistinct(s: seq<Window>, d: Desk)
    requires Invariant(d) && ByZ(s, d.windows)
    ensures forall i, j :: 0 <= i < j < |s| ==> s[i].id != s[j].id && s[i].appId != s[j].appId
    ensures forall i :: 0 <= i < |s| ==> s[i].z <= d.topZ
  {
    forall i | 0 <= i < |s| ensures s[i] in d.windows { assert s[i] in s; }
    forall i, j | 0 <= i < j < |s| ensures s[i].id != s[j].id && s[i].appId != s[j].appId {
      assert s[i] in d.windows && s[j] in d.windows;
      var m :| 0 <= m < |d.windows| && d.windows[m] == s[i];
      var n :| 0 <= n < |d.windows| && d.windows[n] == s[j];
      assert m != n;
    }
  }

  lemma RaisedMember(d: Desk, s: seq<Window>, w: Window, z: int, v: Window)
    requires Invariant(d) && ByZ(s, d.windows) && w in s
    ensures v in Updated(d.windows, w.id, Raised(z)) <==> v == Raised(z)(w) || (v in s && v.id != w.id)
  {
    OrderedDistinct(s, d);
    UpdatedSpec(d.windows, w.id, Raised(z));
  }

  lemma RaisedSorted(s: seq<Window>, w: Window, z: int)
    requires Ascending(s)
    requires forall i :: 0 <= i < |s| && s[i].id != w.id ==> s[i].z < z
    ensures Ascending(Without(s, w.id) + [Raised(z)(w)])
  {
    var rest := Without(s, w.id);
    WithoutOrder(s, w.id);
    WithoutSpec(s, w.id);
    forall i | 0 <= i < |rest| ensures Lower(rest[i], Raised(z)(w)) {
      assert rest[i] in s;
    }
  }

  lemma AppendMember(s: seq<Window>, id: string, r: Window, v: Window)
    ensures v in Without(s, id) + [r] <==> v == r || (v in s && v.id != id)
  {
    WithoutSpec(s, id);
  }

  /** All windows but the one with this id are below `z`. */
  predicate Above(ws: seq<Window>, id: string, z: int) { forall w :: w in ws && w.id != id ==> w.z < z }

  /** The window `w` moved to the end of the order with a higher z. */
  lemma RaisedOrder(d: Desk, s: seq<Window>, w: Window, z: int)
    requires Invariant(d) && ByZ(s, d.windows) && Above(d.windows, w.id, z) && w in s
    ensures ByZ(Without(s, w.id) + [Raised(z)(w)], Updated(d.windows, w.id, Raised(z)))
  {
    assert forall i :: 0 <= i < |s| ==> s[i] in s;
    RaisedSorted(s, w, z);
    forall v
      ensures v in Without(s, w.id) + [Raised(z)(w)] <==> v in Updated(d.windows, w.id, Raised(z))
    {
      RaisedMember(d, s, w, z, v);
      AppendMember(s, w.id, Raised(z)(w), v);
    }
  }

  /** Raising with a z above all others is raising in the stack. */
  lemma RaiseOrder(d: Desk, s: seq<Window>, id: string, z: int) returns (s': seq<Window>)
    requires Invariant(d) && ByZ(s, d.windows) && Above(d.windows, id, z)
    ensures ByZ(s', Updated(d.windows, id, Raised(z))) && Items(s') == Raise(Items(s), id)
  {
    OrderedDistinct(s, d);
    if Held(Items(s), id).None? {
      HeldSpec(s, id);
      UpdatedSpec(d.windows, id, Raised(z));
      s' := s;
    } else {
      var w := HeldWindow(s, id);
      RaisedOrder(d, s, w, z);
      s' := Without(s, id) + [Raised(z)(w)];
      RaisedItems(s, id, w, z);
    }
  }

  lemma RaisedItems(s: seq<Window>, id: string, w: Window, z: int)
    requires Held(Items(s), id) == Some(ItemOf(w))
    ensures Items(Without(s, id) + [Raised(z)(w)]) == Raise(Items(s), id)
  {
    WithoutItems(s, id);
    assert Items(Without(s, id) + [Raised(z)(w)]) == Items(Without(s, id)) + [ItemOf(Raised(z)(w))];
  }

  lemma HeldWindow(s: seq<Window>, id: string) returns (w: Window)
    requires forall i, j :: 0 <= i < j < |s| ==> s[i].id != s[j].id
    requires Held(Items(s), id).Some?
    ensures w in s && w.id == id && ItemOf(w) == Held(Items(s), id).value
    ensures forall v :: v in s && v.id == id ==> v == w
  {
    HeldSpec(s, id);
    if forall v :: v in s ==> v.id != id { HeldNone(s, id); }
    w :| w in s && w.id == id;
  }

  lemma {:induction false} HeldNone(s: seq<Window>, id: string)
    requires forall v :: v in s ==> v.id != id
    ensures Held(Items(s), id).None?
    decreases |s|
  {
    if s != [] {
      assert Items(s)[1..] == Items(s[1..]) && s[0] in s;
      HeldNone(s[1..], id);
    }
  }

  /** Changes that leave id and z alone keep the order. */
  lemma TouchOrder(ws: seq<Window>, s: seq<Window>, id: string, f: Window -> Window)
    requires ByZ(s, ws)
    requires forall w :: f(w).z == w.z && f(w).id == w.id
    ensures ByZ(Updated(s, id, f), Updated(ws, id, f))
  {
    UpdatedSpec(s, id, f);
    UpdatedSpec(ws, id, f);
  }

  lemma CloseOrder(ws: seq<Window>, s: seq<Window>, id: string)
    requires ByZ(s, ws)
    ensures ByZ(Without(s, id), Without(ws, id)) && Items(Without(s, id)) == Drop(Items(s), id)
  {
    WithoutItems(s, id);
    WithoutSpec(s, id);
    WithoutSpec(ws, id);
    WithoutOrder(s, id);
  }

  lemma HeldAppIs(d: Desk, s: seq<Window>, appId: string, id: string)
    requires Invariant(d) && ByZ(s, d.windows) && FindApp(d.windows, appId) == Some(id)
    ensures HeldApp(Items(s), appId).Some? && HeldApp(Items(s), appId).value.id == id
  {
    var w :| w in d.windows && w.appId == appId && w.id == id;
    assert w in s;
    OrderedDistinct(s, d);
    HeldAppSpec(s, appId);
  }

  // ---------------------------------------------------------------- opening

  /** The counter that the handler saw is not below any window of another app. */
  predicate SeesEnough(d: Desk, app: AppDefinition, seen: int) {
    forall w :: w in d.windows && w.appId != app.id ==> w.z <= seen
  }

  /** The id of the window that opening an app raises or makes. */
  function OpenedId(d: Desk, app: AppDefinition): string {
    match FindApp(d.windows, app.id) case Some(id) => id case None => WindowId(d.windowSeq + 1)
  }

  /** Other apps have other windows. */
  lemma OtherAppOtherId(d: Desk, app: AppDefinition)
    requires Invariant(d)
    ensures forall w :: w in d.windows ==> (w.id == OpenedId(d, app) <==> w.appId == app.id)
  {
    FreshId(d);
    if FindApp(d.windows, app.id).Some? {
      var v :| v in d.windows && v.appId == app.id && v.id == OpenedId(d, app);
      forall w | w in d.windows ensures w.id == v.id <==> w.appId == v.appId {
        var m :| 0 <= m < |d.windows| && d.windows[m] == v;
        var n :| 0 <= n < |d.windows| && d.windows[n] == w;
        assert m == n || m < n || n < m;
      }
    }
  }

  /** After opening, the app's window carries the new z, and the others are as they were. */
  lemma OpenedWindows(d: Desk, app: AppDefinition, seen: int)
    requires Invariant(d)
    ensures var ws := OpenSeeing(d, app, seen).windows;
            && (exists v :: v in ws && v.id == OpenedId(d, app))
            && (forall v :: v in ws && v.id == OpenedId(d, app) ==> v.z == seen + 1 && !v.minimized && v.appId == app.id)
            && (forall v :: v in ws && v.id != OpenedId(d, app) <==> v in d.windows && v.appId != app.id)
  {
    OtherAppOtherId(d, app);
    if FindApp(d.windows, app.id).Some? {
      var id := OpenedId(d, app);
      UpdatedSpec(d.windows, id, Raised(seen + 1));
      var v :| v in d.windows && v.appId == app.id && v.id == id;
      assert Raised(seen + 1)(v) in Updated(d.windows, id, Raised(seen + 1));
    } else {
      assert NewWindow(app, d.windowSeq, seen + 1) in OpenSeeing(d, app, seen).windows;
    }
  }

  lemma OpenOrder(d: Desk, s: seq<Window>, app: AppDefinition, seen: int) returns (s': seq<Window>)
    requires Invariant(d) && ByZ(s, d.windows) && SeesEnough(d, app, seen)
    ensures ByZ(s', OpenSeeing(d, app, seen).windows)
    ensures Items(s') == NextStack(Items(s), Open(app, seen), WindowId(d.windowSeq + 1))
  {
    var found := FindApp(d.windows, app.id);
    if found.Some? {
      assert HeldApp(Items(s), app.id).Some? && HeldApp(Items(s), app.id).value.id == found.value by {
        HeldAppIs(d, s, app.id, found.value);
      }
      assert Above(d.windows, found.value, seen + 1) by { OtherAppOtherId(d, app); }
      s' := RaiseOrder(d, s, found.value, seen + 1);
    } else {
      assert HeldApp(Items(s), app.id).None? by { HeldAppNone(s, app.id); }
      OpenNewRefines(d, s, app, seen);
      s' := s + [NewWindow(app, d.windowSeq, seen + 1)];
    }
  }

  lemma OpenNewRefines(d: Desk, s: seq<Window>, app: AppDefinition, seen: int)
    requires ByZ(s, d.windows) && forall w :: w in d.windows ==> w.z <= seen
    ensures var win := NewWindow(app, d.windowSeq, seen + 1);
            && ByZ(s + [win], d.windows + [win])
            && Items(s + [win]) == Items(s) + [Item(WindowId(d.windowSeq + 1), app.id, false)]
  {
    var win := NewWindow(app, d.windowSeq, seen + 1);
    assert forall i :: 0 <= i < |s| ==> s[i] in s;
    assert ItemOf(win) == Item(WindowId(d.windowSeq + 1), app.id, false);
  }

  lemma {:induction false} HeldAppNone(s: seq<Window>, appId: string)
    requires forall v :: v in s ==> v.appId != appId
    ensures HeldApp(Items(s), appId).None?
    decreases |s|
  {
    if s != [] {
      assert Items(s)[1..] == Items(s[1..]) && s[0] in s;
      HeldAppNone(s[1..], appId);
    }
  }

  lemma MinimizeOrder(ws: seq<Window>, s: seq<Window>, id: string)
    requires ByZ(s, ws)
    ensures ByZ(Updated(s, id, HIDDEN), Updated(ws, id, HIDDEN))
    ensures Items(Updated(s, id, HIDDEN)) == Hide(Items(s), id)
  {
    TouchOrder(ws, s, id, HIDDEN);
  }

  /** Changes of place, size or maximization do not show in the stack. */
  lemma UnseenOrder(ws: seq<Window>, s: seq<Window>, id: string, f: Window -> Window)
    requires ByZ(s, ws)
    requires forall w :: f(w).z == w.z && ItemOf(f(w)) == ItemOf(w)
    ensures ByZ(Updated(s, id, f), Updated(ws, id, f)) && Items(Updated(s, id, f)) == Items(s)
  {
    assert forall w :: ItemOf(f(w)).id == ItemOf(w).id;
    TouchOrder(ws, s, id, f);
  }

  lemma UnseenStep(d: Desk, s: seq<Window>, e: Event) returns (s': seq<Window>)
    requires ByZ(s, d.windows) && (e.ToggleMaximize? || e.Move? || e.Resize?)
    ensures ByZ(s', Next(d, e).windows) && Items(s') == Items(s)
  {
    var f := if e.ToggleMaximize? then MAXIMIZE_TOGGLED else if e.Move? then Placed(e.x, e.y) else Sized(e.w, e.h);
    UnseenOrder(d.windows, s, e.id, f);
    s' := Updated(s, e.id, f);
  }

  /** What a step needs from its render: enough, if it opens an app. */
  predicate StepSees(d: Desk, e: Event) { e.Open? ==> SeesEnough(d, e.app, e.seen) }

  /** Each step of the counter machine is the step of the stack machine, seen in z order. */
  lemma StepOrder(d: Desk, s: seq<Window>, e: Event) returns (s': seq<Window>)
    requires Invariant(d) && ByZ(s, d.windows) && StepSees(d, e)
    ensures ByZ(s', Next(d, e).windows)
    ensures Items(s') == NextStack(Items(s), e, WindowId(d.windowSeq + 1))
  {
    if e.Open? {
      s' := OpenOrder(d, s, e.app, e.seen);
    } else if e.Focus? {
      s' := RaiseOrder(d, s, e.id, d.topZ + 1);
    } else if e.Close? {
      CloseOrder(d.windows, s, e.id);
      s' := Without(s, e.id);
    } else if e.Minimize? {
      MinimizeOrder(d.windows, s, e.id);
      s' := Updated(s, e.id, HIDDEN);
    } else {
      s' := UnseenStep(d, s, e);
    }
  }

  // ---------------------------------------------------------------- invariant

  lemma UpdatedInvariant(d: Desk, id: string, f: Window -> Window)
    requires Invariant(d)
    requires forall w :: f(w).id == w.id && f(w).appId == w.appId && f(w).z == w.z
    ensures Invariant(d.(windows := Updated(d.windows, id, f)))
  {}

  lemma RaisedInvariant(d: Desk, id: string, z: int)
    requires Invariant(d) && Above(d.windows, id, z)
    ensures Invariant(d.(windows := Updated(d.windows, id, Raised(z)), topZ := z))
  {
    assert forall i :: 0 <= i < |d.windows| ==> d.windows[i] in d.windows;
  }

  lemma {:induction false} WithoutDistinct(ws: seq<Window>, id: string)
    requires Distinct(ws)
    ensures Distinct(Without(ws, id))
    decreases |ws|
  {
    if ws != [] {
      WithoutDistinct(ws[1..], id);
      WithoutSpec(ws[1..], id);
      var rest := Without(ws[1..], id);
      forall k | 0 <= k < |rest| ensures Differ(ws[0], rest[k]) {
        assert rest[k] in ws[1..];
      }
    }
  }

  lemma CloseInvariant(d: Desk, id: string)
    requires Invariant(d)
    ensures Invariant(Next(d, Close(id)))
  {
    var ws := Without(d.windows, id);
    WithoutDistinct(d.windows, id);
    WithoutSpec(d.windows, id);
    forall i | 0 <= i < |ws| ensures ws[i].z <= d.topZ && IssuedId(ws[i].id, d.windowSeq) {
      assert ws[i] in d.windows;
    }
  }

  lemma UnseenInvariant(d: Desk, e: Event)
    requires Invariant(d) && (e.Minimize? || e.ToggleMaximize? || e.Move? || e.Resize?)
    ensures Invariant(Next(d, e))
  {
    var f := if e.Minimize? then HIDDEN else if e.ToggleMaximize? then MAXIMIZE_TOGGLED
             else if e.Move? then Placed(e.x, e.y) else Sized(e.w, e.h);
    UpdatedInvariant(d, e.id, f);
  }

  lemma OpenInvariant(d: Desk, app: AppDefinition, seen: int)
    requires Invariant(d) && SeesEnough(d, app, seen)
    ensures Invariant(OpenSeeing(d, app, seen))
  {
    OtherAppOtherId(d, app);
    if FindApp(d.windows, app.id).Some? {
      RaisedInvariant(d, OpenedId(d, app), seen + 1);
    } else {
      var win := NewWindow(app, d.windowSeq, seen + 1);
      assert win.id == WindowId(d.windowSeq + 1);
      assert forall i :: 0 <= i < |d.windows| ==> d.windows[i] in d.windows;
    }
  }

  lemma StepInvariant(d: Desk, e: Event)
    requires Invariant(d) && StepSees(d, e)
    ensures Invariant(Next(d, e))
  {
    if e.Open? {
      OpenInvariant(d, e.app, e.seen);
    } else if e.Focus? {
      RaisedInvariant(d, e.id, d.topZ + 1);
    } else if e.Close? {
      CloseInvariant(d, e.id);
    } else {
      UnseenInvariant(d, e);
    }
  }

  lemma DifferentZ(ws: seq<Window>, v: Window, w: Window)
    requires Distinct(ws) && v in ws && w in ws && v != w
    ensures v.z != w.z
  {
    var m :| 0 <= m < |ws| && ws[m] == v;
    var n :| 0 <= n < |ws| && ws[n] == w;
    assert if m < n then Differ(ws[m], ws[n]) else Differ(ws[n], ws[m]);
  }

  lemma NotAboveCounter(d: Desk, w: Window)
    requires Invariant(d) && w in d.windows
    ensures w.z <= d.topZ
  {}

  /** Otherwise a window of another app is as high as the opened one, or above the counter. */
  lemma OpenBreaks(d: Desk, app: AppDefinition, seen: int)
    requires Invariant(d) && !SeesEnough(d, app, seen)
    ensures !Invariant(OpenSeeing(d, app, seen))
  {
    var d' := OpenSeeing(d, app, seen);
    var w, v := OpenedBelow(d, app, seen);
    if Invariant(d') {
      NotAboveCounter(d', w);
      DifferentZ(d'.windows, v, w);
      assert false;
    }
  }

  lemma OpenedBelow(d: Desk, app: AppDefinition, seen: int) returns (w: Window, v: Window)
    requires Invariant(d) && !SeesEnough(d, app, seen)
    ensures var d' := OpenSeeing(d, app, seen);
            v in d'.windows && w in d'.windows && v != w && v.z == seen + 1 == d'.topZ && w.z > seen
  {
    OpenedWindows(d, app, seen);
    w :| w in d.windows && w.appId != app.id && w.z > seen;
    v :| v in OpenSeeing(d, app, seen).windows && v.id == OpenedId(d, app);
  }

  /** What opening an app puts on top of the stack. */
  lemma OpenedOnTop(d: Desk, s: seq<Window>, app: AppDefinition, seen: int)
    requires Invariant(d) && ByZ(s, d.windows)
    ensures var stack := NextStack(Items(s), Open(app, seen), WindowId(d.windowSeq + 1));
            stack != [] && stack[|stack| - 1].id == OpenedId(d, app)
  {
    var found := FindApp(d.windows, app.id);
    if found.Some? {
      HeldAppIs(d, s, app.id, found.value);
      var w :| w in d.windows && w.appId == app.id && w.id == found.value;
      assert w in s;
      OrderedDistinct(s, d);
      HeldSpec(s, found.value);
    } else {
      HeldAppNone(s, app.id);
    }
  }

  lemma LastIsHighest(s: seq<Window>, w: Window)
    requires Ascending(s) && w in s && w.id != s[|s| - 1].id
    ensures w.z < s[|s| - 1].z
  {
    var i :| 0 <= i < |s| && s[i] == w;
    assert Lower(s[i], s[|s| - 1]);
  }

  /** In z order, that is then not the stack. */
  lemma OpenMisorders(d: Desk, s: seq<Window>, app: AppDefinition, seen: int, s': seq<Window>)
    requires Invariant(d) && ByZ(s, d.windows) && ByZ(s', OpenSeeing(d, app, seen).windows)
    requires Items(s') == NextStack(Items(s), Open(app, seen), WindowId(d.windowSeq + 1))
    ensures SeesEnough(d, app, seen)
  {
    assert s' != [] && s'[|s'| - 1].id == OpenedId(d, app) by {
      OpenedOnTop(d, s, app, seen);
      assert |Items(s')| == |s'|;
      assert ItemOf(s'[|s'| - 1]) == Items(s')[|s'| - 1];
    }
    OpenedWindows(d, app, seen);
    assert s'[|s'| - 1] in s';
    forall w | w in d.windows && w.appId != app.id ensures w.z <= seen {
      LastIsHighest(s', w);
    }
  }

  /** Opening an app keeps the invariant, and is the step of the stack, if and only if the
      counter that its handler saw is not below any window of another app. */
  lemma OpenExact(d: Desk, stack: Stack, app: AppDefinition, seen: int)
    requires Invariant(d) && Refines(d, stack)
    ensures Invariant(OpenSeeing(d, app, seen)) <==> SeesEnough(d, app, seen)
    ensures Refines(OpenSeeing(d, app, seen), NextStack(stack, Open(app, seen), WindowId(d.windowSeq + 1)))
            <==> SeesEnough(d, app, seen)
  {
    var s :| ByZ(s, d.windows) && Items(s) == stack;
    if SeesEnough(d, app, seen) {
      OpenInvariant(d, app, seen);
      var s' := OpenOrder(d, s, app, seen);
    } else {
      OpenBreaks(d, app, seen);
      forall s' | ByZ(s', OpenSeeing(d, app, seen).windows)
        ensures Items(s') != NextStack(stack, Open(app, seen), WindowId(d.windowSeq + 1))
      {
        if Items(s') == NextStack(stack, Open(app, seen), WindowId(d.windowSeq + 1)) {
          OpenMisorders(d, s, app, seen, s');
        }
      }
    }
  }

  // ---------------------------------------------------------------- runs

  /** At each event of the run that opens an app, its handler had seen enough. */
  predicate EveryOpenSees(events: seq<Event>) {
    events == []
    || (var front := events[..|events| - 1]; EveryOpenSees(front) && StepSees(Run(front), events[|events| - 1]))
  }

  lemma {:induction false} RunOrder(events: seq<Event>) returns (s: seq<Window>)
    requires EveryOpenSees(events)
    ensures Invariant(Run(events))
    ensures ByZ(s, Run(events).windows) && Items(s) == RunStack(events)
  {
    if events == [] {
      s := [];
    } else {
      var front, e := events[..|events| - 1], events[|events| - 1];
      var s0 := RunOrder(front);
      assert Invariant(Run(events)) by { StepInvariant(Run(front), e); }
      s := StepOrder(Run(front), s0, e);
    }
  }

  /** Over every run in which the handlers see enough: ids, apps and z values are distinct, no z
      is above the counter, and in z order the windows are the most-recently-used stack of
      the same run. */
  lemma RunRefines(events: seq<Event>)
    requires EveryOpenSees(events)
    ensures Invariant(Run(events)) && Refines(Run(events), RunStack(events))
  {
    var s := RunOrder(events);
  }

  ghost predicate Sound(events: seq<Event>) {
    Invariant(Run(events)) && Refines(Run(events), RunStack(events))
  }

  lemma {:induction false} PrefixSees(events: seq<Event>, n: nat)
    requires EveryOpenSees(events) && n <= |events|
    ensures EveryOpenSees(events[..n])
    decreases |events|
  {
    if n == |events| {
      assert events[..n] == events;
    } else {
      var front := events[..|events| - 1];
      PrefixSees(front, n);
      assert front[..n] == events[..n];
    }
  }

  lemma LastBreaks(front: seq<Event>, e: Event)
    requires EveryOpenSees(front) && !StepSees(Run(front), e)
    ensures !Sound(front + [e])
  {
    var events := front + [e];
    assert events[..|events| - 1] == front && events[|events| - 1] == e;
    RunRefines(front);
    OpenExact(Run(front), RunStack(front), e.app, e.seen);
  }

  /** And over no other runs: the windows are right all along if and only if every handler that
      opened an app had seen enough. */
  lemma {:induction false} RunExact(events: seq<Event>)
    ensures (forall n :: 0 <= n <= |events| ==> Sound(events[..n])) <==> EveryOpenSees(events)
  {
    if EveryOpenSees(events) {
      forall n | 0 <= n <= |events| ensures Sound(events[..n]) {
        PrefixSees(events, n);
        RunRefines(events[..n]);
      }
    } else {
      var bad := UnsoundPrefix(events);
      assert events[..|bad|] == bad;
    }
  }

  lemma {:induction false} UnsoundPrefix(events: seq<Event>) returns (bad: seq<Event>)
    requires !EveryOpenSees(events)
    ensures bad <= events && !Sound(bad)
  {
    var front, e := events[..|events| - 1], events[|events| - 1];
    if EveryOpenSees(front) {
      LastBreaks(front, e);
      bad := front + [e];
    } else {
      bad := UnsoundPrefix(front);
    }
  }

  /** A handler that sees the counter the event before it left sees enough. */
  lemma {:induction false} CurrentSees(events: seq<Event>)
    requires forall n :: 0 <= n < |events| && events[n].Open? ==> events[n].seen == Run(events[..n]).topZ
    ensures EveryOpenSees(events)
  {
    if events != [] {
      var front := events[..|events| - 1];
      assert forall n :: 0 <= n < |front| ==> front[..n] == events[..n];
      CurrentSees(front);
      RunRefines(front);
    }
  }

  lemma {:induction false} HighestSpec(ws: seq<Window>)
    ensures Highest(ws).None? ==> forall w :: w in ws ==> w.minimized
    ensures Highest(ws).Some? ==>
              var top := Highest(ws).value;
              top in ws && !top.minimized && forall w :: w in ws && !w.minimized ==> w.z <= top.z
  {
    if ws != [] {
      var front := ws[..|ws| - 1];
      HighestSpec(front);
      assert ws == front + [ws[|ws| - 1]];
    }
  }

  lemma {:induction false} TopSpec(s: seq<Window>)
    requires Ascending(s)
    ensures Top(Items(s)).None? ==> forall w :: w in s ==> w.minimized
    ensures Top(Items(s)).Some? ==>
              exists top :: top in s && !top.minimized && top.id == Top(Items(s)).value
                            && forall w :: w in s && !w.minimized ==> w.z <= top.z
  {
    if s != [] {
      var front, last := s[..|s| - 1], s[|s| - 1];
      assert Items(s)[..|s| - 1] == Items(front);
      TopSpec(front);
      assert s == front + [last];
      if !last.minimized {
        assert last in s;
      } else if Top(Items(front)).Some? {
        var top: Window :| top in front && !top.minimized && top.id == Top(Items(front)).value
                   && forall w :: w in front && !w.minimized ==> w.z <= top.z;
        assert top in s;
      }
    }
  }

  lemma ActiveIsTop(s: seq<Window>, ws: seq<Window>)
    requires ByZ(s, ws)
    ensures ActiveId(ws) == Top(Items(s))
  {
    HighestSpec(ws);
    TopSpec(s);
    if Highest(ws).Some? {
      var high := Highest(ws).value;
      assert high in s;
      var top: Window :| top in s && !top.minimized && top.id == Top(Items(s)).value
                         && forall w: Window :: w in s && !w.minimized ==> w.z <= top.z;
      assert top in ws && high.z == top.z;
      var i :| 0 <= i < |s| && s[i] == high;
      var j :| 0 <= j < |s| && s[j] == top;
      assert i == j;
    } else {
      assert forall w: Window :: w in s ==> w.minimized;
    }
  }

  /** The window drawn as active is the most recently used one that is not minimized. */
  lemma ActiveIsMostRecent(events: seq<Event>)
    requires EveryOpenSees(events)
    ensures ActiveId(Run(events).windows) == Top(RunStack(events))
  {
    var s := RunOrder(events);
    ActiveIsTop(s, Run(events).windows);
  }

  lemma HighestIs(ws: seq<Window>, id: string, z: int)
    requires exists w :: w in ws && w.id == id && w.z == z && !w.minimized
    requires Above(ws, id, z)
    ensures ActiveId(ws) == Some(id)
  {
    HighestSpec(ws);
  }

  /** A focused window becomes the active one, minimized before or not. */
  lemma FocusActivates(d: Desk, w: Window)
    requires Invariant(d) && w in d.windows
    ensures ActiveId(Next(d, Focus(w.id)).windows) == Some(w.id)
  {
    var ws := Next(d, Focus(w.id)).windows;
    UpdatedSpec(d.windows, w.id, Raised(d.topZ + 1));
    assert Raised(d.topZ + 1)(w) in ws;
    HighestIs(ws, w.id, d.topZ + 1);
  }

  /** So does the window of an app that is opened, if the handler saw enough. */
  lemma OpenActivates(d: Desk, app: AppDefinition, seen: int)
    requires Invariant(d) && SeesEnough(d, app, seen)
    ensures ActiveId(OpenSeeing(d, app, seen).windows) == Some(OpenedId(d, app))
  {
    OpenedWindows(d, app, seen);
    HighestIs(OpenSeeing(d, app, seen).windows, OpenedId(d, app), seen + 1);
  }

  lemma {:induction false} HighestUpdated(ws: seq<Window>, id: string, f: Window -> Window)
    requires forall w :: f(w).z == w.z && f(w).id == w.id && f(w).minimized == w.minimized
    ensures match Highest(ws)
            case None => Highest(Updated(ws, id, f)).None?
            case Some(w) => Highest(Updated(ws, id, f)) == Some(if w.id == id then f(w) else w)
  {
    if ws != [] {
      assert Updated(ws, id, f)[..|ws| - 1] == Updated(ws[..|ws| - 1], id, f);
      HighestUpdated(ws[..|ws| - 1], id, f);
    }
  }

  /** Placing, sizing and maximizing never change which window is active, and maximizing
      twice changes nothing. */
  lemma QuietHandlers(d: Desk, e: Event)
    requires e.ToggleMaximize? || e.Move? || e.Resize?
    ensures ActiveId(Next(d, e).windows) == ActiveId(d.windows)
    ensures e.ToggleMaximize? ==> Next(Next(d, e), e) == d
  {
    var f := if e.ToggleMaximize? then MAXIMIZE_TOGGLED else if e.Move? then Placed(e.x, e.y) else Sized(e.w, e.h);
    HighestUpdated(d.windows, e.id, f);
    if e.ToggleMaximize? {
      assert forall w :: f(f(w)) == w;
      assert Updated(Updated(d.windows, e.id, f), e.id, f) == d.windows;
    }
  }

  /** The failing case: two windows opened from one render, both seeing the same counter, get
      the same z. */
  lemma StaleCounterCollides(d: Desk, a: AppDefinition, b: AppDefinition)
    requires FindApp(d.windows, a.id).None? && FindApp(d.windows, b.id).None? && a.id != b.id
    ensures var d' := Next(Next(d, Open(a, d.topZ)), Open(b, d.topZ));
            var n := |d'.windows|;
            n >= 2 && d'.windows[n - 1].appId == b.id && d'.windows[n - 2].appId == a.id
            && d'.windows[n - 1].z == d'.windows[n - 2].z
  {
    var d1 := OpenSeeing(d, a, d.topZ);
    assert forall w :: w in d1.windows ==> w in d.windows || w == NewWindow(a, d.windowSeq, d.topZ + 1);
    assert forall w :: w in d1.windows ==> w.appId != b.id;
  }

  // ---------------------------------------------------------------- what stays of each window

  /** The same window, but for its place in the stack and whether it is shown. */
  predicate SameBut(v: Window, w: Window) {
    && v.id == w.id && v.appId == w.appId && v.x == w.x && v.y == w.y && v.w == w.w && v.h == w.h
    && v.maximized == w.maximized
  }

  /** Focusing leaves every window where it is, with its size and maximization; only the focused
      one is raised and shown. */
  lemma FocusKeeps(d: Desk, id: string)
    ensures var ws := Next(d, Focus(id)).windows;
            |ws| == |d.windows| && forall i :: 0 <= i < |ws| ==>
              && SameBut(ws[i], d.windows[i])
              && (d.windows[i].id != id ==> ws[i] == d.windows[i])
              && (d.windows[i].id == id ==> ws[i].z == d.topZ + 1 && !ws[i].minimized)
  {}

  /** Opening an app leaves every window that is there likewise; a new one has the size the app
      asks for, or 560 by 420, stands on the diagonal from (80, 64), and is not maximized. */
  lemma OpenKeeps(d: Desk, app: AppDefinition, seen: int)
    ensures var ws := OpenSeeing(d, app, seen).windows;
            && (forall i :: 0 <= i < |d.windows| ==> i < |ws| && SameBut(ws[i], d.windows[i]))
            && (FindApp(d.windows, app.id).Some? ==> |ws| == |d.windows|)
            && (FindApp(d.windows, app.id).None? ==>
                  && |ws| == |d.windows| + 1
                  && var w := ws[|d.windows|];
                     && w.appId == app.id && !w.minimized && !w.maximized
                     && (w.w, w.h) == (if app.size.Some? then app.size.value else (560, 420))
                     && w.x - 80 == w.y - 64 && w.x in {80, 108, 136, 164, 192, 220})
  {}

  /** The places of new windows repeat after six and not before. */
  lemma PlacesRepeat(app: AppDefinition, m: nat, n: nat, y: int, z: int)
    ensures NewWindow(app, m, y).x == NewWindow(app, n, z).x <==> m % 6 == n % 6
  {}

  /** The other handlers change what they say of the one window, and nothing of any other. */
  lemma HandlersExact(d: Desk, id: string, i: nat, x: int, y: int, w: nat, h: nat)
    requires i < |d.windows|
    ensures var was := d.windows[i];
            && Next(d, Minimize(id)).windows[i] == (if was.id == id then was.(minimized := true) else was)
            && Next(d, ToggleMaximize(id)).windows[i] == (if was.id == id then was.(maximized := !was.maximized) else was)
            && Next(d, Move(id, x, y)).windows[i] == (if was.id == id then was.(x := x, y := y) else was)
            && Next(d, Resize(id, w, h)).windows[i] == (if was.id == id then was.(w := w, h := h) else was)
  {}

  /** Only focusing and opening count up, and only a new window takes a number. */
  lemma CountersExact(d: Desk, e: Event)
    ensures var d' := Next(d, e);
            && d'.topZ == (if e.Focus? then d.topZ + 1 else if e.Open? then e.seen + 1 else d.topZ)
            && d'.windowSeq == d.windowSeq + (if e.Open? && FindApp(d.windows, e.app.id).None? then 1 else 0)
            && (!e.Open? && !e.Close? ==> |d'.windows| == |d.windows|)
  {}

  /** A window no higher than the highest one does not take its place. */
  lemma HighestStays(ws: seq<Window>, w: Window)
    requires Highest(ws).Some? && w.z <= Highest(ws).value.z
    ensures Highest(ws + [w]) == Highest(ws)
  {
    assert (ws + [w])[..|ws|] == ws;
  }

  lemma NotFound(ws: seq<Window>, appId: string)
    requires forall w :: w in ws ==> w.appId != appId
    ensures FindApp(ws, appId).None?
  {}

  lemma NewIsHighest(d: Desk, app: AppDefinition)
    requires Invariant(d) && FindApp(d.windows, app.id).None?
    ensures Highest(OpenSeeing(d, app, d.topZ).windows) == Some(NewWindow(app, d.windowSeq, d.topZ + 1))
  {
    var ws, w := d.windows, NewWindow(app, d.windowSeq, d.topZ + 1);
    HighestSpec(ws);
    assert (ws + [w])[..|ws|] == ws;
  }

  /** Of two windows opened from one render, the first stays the active one. */
  lemma StaleFirstStaysActive(d: Desk, a: AppDefinition, b: AppDefinition)
    requires Invariant(d) && FindApp(d.windows, a.id).None? && FindApp(d.windows, b.id).None? && a.id != b.id
    ensures var d' := Next(Next(d, Open(a, d.topZ)), Open(b, d.topZ));
            ActiveId(d'.windows) == Some(OpenedId(d, a))
  {
    var d1 := OpenSeeing(d, a, d.topZ);
    NewIsHighest(d, a);
    assert FindApp(d1.windows, b.id).None? by {
      assert forall w :: w in d1.windows ==> w in d.windows || w == NewWindow(a, d.windowSeq, d.topZ + 1);
      NotFound(d1.windows, b.id);
    }
    HighestStays(d1.windows, NewWindow(b, d1.windowSeq, d.topZ + 1));
  }
}
