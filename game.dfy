/** The tile-combining game of the puzzle page: a fixed row of tiles, each
  * holding a number behind a check box, a selection of at most two tiles,
  * four operator buttons, and an undo stack of snapshots. Tiles are named by
  * their position 0 .. size - 1 in the page. */
module TileGame {
  import opened TileRules

  /** What the page records about one tile when it takes a snapshot. */
  datatype TileState = TileState(number: int, selected: bool, selectionIndex: int, visible: bool)

  /** One entry of the undo stack: a record per tile, in tile order. */
  type Snapshot = seq<TileState>

  /** The tile-related state of the page at one moment. */
  datatype Board = Board(values: seq<int>, checked: seq<bool>, visible: seq<bool>, selection: seq<nat>)

  /** A slot of a JavaScript array that may hold a hole. */
  datatype Slot = Hole | Tile(tile: nat)

  /** The position of t in s, or -1 when t does not occur (`indexOf`). */
  function IndexOf(s: seq<nat>, t: nat): (r: int)
    ensures -1 <= r < |s|
    ensures r == -1 <==> t !in s
    ensures r >= 0 ==> s[r] == t && t !in s[..r]
  {
    if s == [] then -1
    else if s[0] == t then 0
    else
      var k := IndexOf(s[1..], t);
      assert s[1..] == s[1..][..|s| - 1];
      if k == -1 then -1
      else
        assert s[..k + 1] == [s[0]] + s[1..][..k];
        k + 1
  }

  /** The snapshot the page takes of a board. */
  function Capture(b: Board): Snapshot
    requires |b.checked| == |b.values| && |b.visible| == |b.values|
  {
    seq(|b.values|, i requires 0 <= i < |b.values| =>
      TileState(b.values[i], b.checked[i], IndexOf(b.selection, i), b.visible[i]))
  }

  /** A snapshot holds one record per tile with its number, box and
    * visibility; its selection index is -1 exactly when the tile is not
    * selected, and otherwise a position of the selection holding the tile. */
  lemma CaptureRecords(b: Board)
    requires |b.checked| == |b.values| && |b.visible| == |b.values|
    ensures var r := Capture(b);
      && |r| == |b.values|
      && forall i :: 0 <= i < |r| ==>
           && r[i].number == b.values[i] && r[i].selected == b.checked[i] && r[i].visible == b.visible[i]
           && (r[i].selectionIndex == -1 <==> i !in b.selection)
           && (r[i].selectionIndex != -1 ==> 0 <= r[i].selectionIndex < |b.selection| && b.selection[r[i].selectionIndex] == i)
  {
  }

  /** Removes one element at `start`, as `splice(start, 1)` does; a negative
    * start counts from the end. */
  function SpliceOne(s: seq<nat>, start: int): (r: seq<nat>)
    ensures 0 <= start < |s| ==> r == s[..start] + s[start + 1..]
    ensures start >= |s| ==> r == s
    ensures forall x :: x in r ==> x in s
  {
    var k := if start < 0 then (if |s| + start < 0 then 0 else |s| + start) else start;
    if k < |s| then s[..k] + s[k + 1..] else s
  }

  /** A negative start counts from the end, and from 0 below that. */
  lemma SpliceFromEnd(s: seq<nat>, start: int)
    requires start < 0
    ensures -|s| <= start ==> SpliceOne(s, start) == s[..|s| + start] + s[|s| + start + 1..]
    ensures start < -|s| && s != [] ==> SpliceOne(s, start) == s[1..]
  {
  }

  /** Splicing out the first occurrence of t leaves the other elements in
    * their order, around the place t held. */
  lemma SpliceRemoves(s: seq<nat>, t: nat)
    requires t in s
    ensures var k := IndexOf(s, t);
            0 <= k && s == SpliceOne(s, k)[..k] + [t] + SpliceOne(s, k)[k..]
  {
    SpliceAt(s, IndexOf(s, t));
  }

  lemma SpliceAt(s: seq<nat>, k: nat)
    requires k < |s|
    ensures s == SpliceOne(s, k)[..k] + [s[k]] + SpliceOne(s, k)[k..]
  {
    var r := SpliceOne(s, k);
    assert r == s[..k] + s[k + 1..];
    assert r[..k] == s[..k];
    assert r[k..] == s[k + 1..];
    assert s == s[..k] + [s[k]] + s[k + 1..];
  }

  /** The number of visible tiles. */
  function CountVisible(v: seq<bool>): (c: nat)
    ensures c <= |v|
  {
    if v == [] then 0 else CountVisible(v[..|v| - 1]) + (if v[|v| - 1] then 1 else 0)
  }

  /** Hiding a visible tile lowers the count of visible tiles by exactly one. */
  lemma {:induction false} HideOne(v: seq<bool>, i: nat)
    requires i < |v| && v[i]
    ensures CountVisible(v[i := false]) == CountVisible(v) - 1
    decreases |v|
  {
    var w := v[i := false];
    if i == |v| - 1 {
      assert w[..|w| - 1] == v[..|v| - 1];
    } else {
      assert w[..|w| - 1] == v[..|v| - 1][i := false];
      HideOne(v[..|v| - 1], i);
    }
  }

  /** Writes `t` at index k of a JavaScript array held as slots: past the end
    * the array grows and the gap is left as holes, and a negative index names
    * an ordinary property, so no element changes. */
  function WriteAt(a: seq<Slot>, k: int, t: nat): (r: seq<Slot>)
    ensures k < 0 ==> r == a
    ensures k >= 0 ==> |r| == (if k < |a| then |a| else k + 1) && r[k] == Tile(t)
    ensures k >= 0 ==> forall j :: 0 <= j < |r| && j != k ==> r[j] == (if j < |a| then a[j] else Hole)
  {
    if k < 0 then a
    else if k < |a| then a[k := Tile(t)]
    else a + seq(k - |a|, _ => Hole) + [Tile(t)]
  }

  /** The array of slots of a selection without holes. */
  function Slots(s: seq<nat>): (r: seq<Slot>)
    ensures |r| == |s| && forall j :: 0 <= j < |s| ==> r[j] == Tile(s[j])
  {
    seq(|s|, j requires 0 <= j < |s| => Tile(s[j]))
  }

  /** The selection held by an array of slots that has no hole. */
  function Dense(a: seq<Slot>): (s: seq<nat>)
    requires forall j :: 0 <= j < |a| ==> a[j].Tile?
    ensures |s| == |a| && forall j :: 0 <= j < |a| ==> a[j] == Tile(s[j])
  {
    if a == [] then [] else [a[0].tile] + Dense(a[1..])
  }

  /** Tile i is one of the (at most two) selected tiles. */
  predicate InSelection(s: seq<nat>, i: nat)
  {
    (|s| >= 1 && s[0] == i) || (|s| >= 2 && s[1] == i)
  }

  /** A board the player can reach: at most two distinct selected tiles, each
    * checked and shown, and every other checked tile hidden (the tile a
    * combination consumed keeps its check mark). */
  ghost predicate Playable(b: Board)
  {
    && |b.checked| == |b.values| && |b.visible| == |b.values|
    && |b.selection| <= 2
    && (forall k :: 0 <= k < |b.selection| ==>
          b.selection[k] < |b.values| && b.checked[b.selection[k]] && b.visible[b.selection[k]])
    && (forall k, l :: 0 <= k < l < |b.selection| ==> b.selection[k] != b.selection[l])
    && (forall i :: 0 <= i < |b.values| && b.checked[i] && !InSelection(b.selection, i) ==> !b.visible[i])
  }

  /** A board just before a combination: two tiles selected. */
  ghost predicate Combinable(b: Board, size: nat)
  {
    Playable(b) && |b.values| == size && |b.selection| == 2
  }

  /** Checking the box of a shown, unchecked tile t: when two tiles are
    * already selected the oldest is shifted out and unchecked, then t joins
    * the selection. */
  lemma CheckKeepsPlayable(b: Board, t: nat, b': Board)
    requires Playable(b) && t < |b.values| && b.visible[t] && !b.checked[t]
    requires b'.values == b.values && b'.visible == b.visible
    requires |b.selection| == 2 ==>
      b'.selection == b.selection[1..] + [t] && b'.checked == b.checked[t := true][b.selection[0] := false]
    requires |b.selection| < 2 ==>
      b'.selection == b.selection + [t] && b'.checked == b.checked[t := true]
    ensures Playable(b')
  {
    assert !InSelection(b.selection, t);
    forall i | 0 <= i < |b'.values| && b'.checked[i] && !InSelection(b'.selection, i)
      ensures !b'.visible[i]
    {
      assert i != t;
      if |b.selection| == 2 {
        assert i != b.selection[0] && !InSelection(b.selection, i);
      }
    }
  }

  /** Unchecking the box of a selected tile t removes t from the selection. */
  lemma UncheckKeepsPlayable(b: Board, t: nat, k: nat, b': Board)
    requires Playable(b) && k < |b.selection| && b.selection[k] == t && k <= |b'.selection|
    requires b'.values == b.values && b'.visible == b.visible
    requires b.selection == b'.selection[..k] + [t] + b'.selection[k..]
    requires b'.checked == b.checked[t := false]
    ensures Playable(b')
  {
    SkipIndex(b.selection, b'.selection, t, k);
    forall j | 0 <= j < |b'.selection|
      ensures b'.selection[j] < |b'.values| && b'.checked[b'.selection[j]] && b'.visible[b'.selection[j]]
    {
      var m := Skip(j, k);
      assert b.selection[m] != b.selection[k];
    }
    forall i | 0 <= i < |b'.values| && b'.checked[i] && !InSelection(b'.selection, i)
      ensures !b'.visible[i]
    {
      OutOfSelection(b.selection, b'.selection, t, k, i);
    }
  }

  /** After removing position k, position j of the new selection is position
    * Skip(j, k) of the old one. */
  lemma SkipIndex(s: seq<nat>, s': seq<nat>, t: nat, k: nat)
    requires k <= |s'| && s == s'[..k] + [t] + s'[k..]
    ensures |s| == |s'| + 1
    ensures forall j :: 0 <= j < |s'| ==> s'[j] == s[Skip(j, k)]
  {
    forall j | 0 <= j < |s'|
      ensures s'[j] == s[Skip(j, k)]
    {
      if j < k {
        assert s[j] == s'[..k][j];
      } else {
        assert s[j + 1] == s'[k..][j - k];
      }
    }
  }

  /** A tile other than t outside the new selection was outside the old one. */
  lemma OutOfSelection(s: seq<nat>, s': seq<nat>, t: nat, k: nat, i: nat)
    requires |s| <= 2 && k < |s| && s[k] == t && |s| == |s'| + 1
    requires forall j :: 0 <= j < |s'| ==> s'[j] == s[Skip(j, k)]
    requires i != t && !InSelection(s', i)
    ensures !InSelection(s, i)
  {
    forall m | 0 <= m < |s| && m != k
      ensures s[m] != i
    {
      var j := if m < k then m else m - 1;
      assert Skip(j, k) == m;
    }
  }

  /** The position in the old selection of position j of the selection that
    * lost its element k. */
  function Skip(j: nat, k: nat): (m: nat)
    ensures m != k && (m < k <==> j < k)
  {
    if j < k then j else j + 1
  }

  /** Each snapshot on the undo stack was taken of the board beside it, just
    * before a combination. */
  ghost predicate StackMatches(states: seq<Snapshot>, history: seq<Board>, size: nat)
  {
    |history| == |states|
    && forall j :: 0 <= j < |states| ==> Combinable(history[j], size) && states[j] == Capture(history[j])
  }

  /** The disabled flags of the add, subtract, multiply, divide and undo
    * buttons. */
  datatype Buttons = Buttons(add: bool, sub: bool, mul: bool, div: bool, undo: bool)

  /** The buttons the page sets for board b: an operator is enabled only
    * for two selected tiles whose values it accepts, and undo only when
    * the stack holds a snapshot. */
  function ButtonsFor(b: Board, stackEmpty: bool): Buttons
    requires forall k :: 0 <= k < |b.selection| ==> b.selection[k] < |b.values|
  {
    if |b.selection| == 2 then
      var x, y := b.values[b.selection[0]], b.values[b.selection[1]];
      Buttons(Disabled(Add, x, y), Disabled(Sub, x, y), Disabled(Mul, x, y), Disabled(Div, x, y), stackEmpty)
    else
      Buttons(true, true, true, true, stackEmpty)
  }

  /** The invariant of the page between two events. Once the game is won the
    * selection and the stack are empty; before that the board is playable. */
  ghost predicate Consistent(size: nat, b: Board, states: seq<Snapshot>, history: seq<Board>, won: bool, buttons: Buttons)
  {
    && |b.values| == size && |b.checked| == size && |b.visible| == size
    && (forall k :: 0 <= k < |b.selection| ==> b.selection[k] < size)
    && (won ==> b.selection == [] && states == [])
    && (!won ==> Playable(b))
    && StackMatches(states, history, size)
    && buttons == ButtonsFor(b, states == [])
  }

  /** The board after the box of tile t flips. A box that becomes checked
    * adds t to the selection, after shifting out and unchecking the oldest
    * tile when two are selected; a box that becomes unchecked splices t out
    * of the selection at its position. */
  function Toggled(b: Board, t: nat): (r: Board)
    requires t < |b.checked| && forall k :: 0 <= k < |b.selection| ==> b.selection[k] < |b.checked|
    ensures |r.checked| == |b.checked|
    ensures forall k :: 0 <= k < |r.selection| ==> r.selection[k] < |b.checked|
  {
    var box := b.checked[t := !b.checked[t]];
    if box[t] then
      if |b.selection| == 2 then Board(b.values, box[b.selection[0] := false], b.visible, b.selection[1..] + [t])
      else Board(b.values, box, b.visible, b.selection + [t])
    else
      Board(b.values, box, b.visible, SpliceOne(b.selection, IndexOf(b.selection, t)))
  }

  /** On a playable board, checking a shown tile appends it to the selection
    * (a first-in first-out queue of two), and unchecking a tile removes it
    * and only it, keeping the order of the others. */
  lemma ToggleEffect(b: Board, t: nat)
    requires Playable(b) && t < |b.values| && b.visible[t]
    ensures var b' := Toggled(b, t);
      && b'.values == b.values && b'.visible == b.visible
      && (!b.checked[t] ==>
            && t !in b.selection
            && b'.selection == (if |b.selection| == 2 then b.selection[1..] else b.selection) + [t]
            && b'.checked == (if |b.selection| == 2 then b.checked[t := true][b.selection[0] := false]
                              else b.checked[t := true]))
      && (b.checked[t] ==>
            && t in b.selection && t !in b'.selection
            && b'.checked == b.checked[t := false]
            && var k := IndexOf(b.selection, t);
               0 <= k && b.selection == b'.selection[..k] + [t] + b'.selection[k..])
  {
    var b' := Toggled(b, t);
    if b.checked[t] {
      assert t in b.selection;
      SpliceRemoves(b.selection, t);
      UncheckKeepsPlayable(b, t, IndexOf(b.selection, t), b');
    }
  }

  /** Unchecking a checked tile that is not selected (the tile a combination
    * hid) finds it at index -1, and `splice(-1, 1)` then drops the last
    * selected tile instead, leaving that tile's box as it was. */
  lemma UncheckUnselected(b: Board, t: nat)
    requires t < |b.checked| && forall k :: 0 <= k < |b.selection| ==> b.selection[k] < |b.checked|
    requires b.checked[t] && t !in b.selection && b.selection != []
    ensures var b' := Toggled(b, t);
      && b'.selection == b.selection[..|b.selection| - 1]
      && b'.checked == b.checked[t := false]
      && b'.checked[b.selection[|b.selection| - 1]] == b.checked[b.selection[|b.selection| - 1]]
  {
    var last := b.selection[|b.selection| - 1];
    assert last != t;
  }

  /** Flipping the box of a shown tile keeps the page consistent. */
  lemma ToggleConsistent(size: nat, b: Board, states: seq<Snapshot>, history: seq<Board>, buttons: Buttons, t: nat)
    requires Consistent(size, b, states, history, false, buttons) && t < size && b.visible[t]
    ensures Consistent(size, Toggled(b, t), states, history, false, ButtonsFor(Toggled(b, t), states == []))
  {
    var b' := Toggled(b, t);
    ToggleEffect(b, t);
    if b.checked[t] {
      var k := IndexOf(b.selection, t);
      UncheckKeepsPlayable(b, t, k, b');
    } else {
      CheckKeepsPlayable(b, t, b');
    }
  }

  /** The page's response to the box of tile t flipping: the boxes and the
    * selection it leaves. */
  method FollowBox(b: Board, t: nat) returns (box: seq<bool>, sel: seq<nat>)
    requires t < |b.checked| && forall k :: 0 <= k < |b.selection| ==> b.selection[k] < |b.checked|
    ensures box == Toggled(b, t).checked && sel == Toggled(b, t).selection
  {
    // the browser flips the box before the page sees the change
    box := b.checked[t := !b.checked[t]];
    sel := b.selection;
    if box[t] {
      if |sel| == 2 {
        box := box[sel[0] := false];
        sel := sel[1..];
      }
      sel := sel + [t];
    } else {
      sel := SpliceOne(sel, IndexOf(sel, t));
    }
  }

  /** A combination leaves a playable board: the first tile stays selected
    * and the second, still checked, is hidden. */
  lemma CombineKeepsPlayable(b: Board, r: int, b': Board)
    requires Playable(b) && |b.selection| == 2
    requires b' == Board(b.values[b.selection[0] := r], b.checked, b.visible[b.selection[1] := false], [b.selection[0]])
    ensures Playable(b')
  {
    var a, c := b.selection[0], b.selection[1];
    forall i | 0 <= i < |b'.values| && b'.checked[i] && !InSelection(b'.selection, i)
      ensures !b'.visible[i]
    {
      if i != c {
        assert i != a && !InSelection(b.selection, i);
      }
    }
  }

  /** The board after a combination that writes r into the first selected
    * tile and hides the second. */
  function Combined(b: Board, r: int): Board
    requires |b.selection| == 2 && b.selection[0] < |b.values| && b.selection[1] < |b.visible|
  {
    Board(b.values[b.selection[0] := r], b.checked, b.visible[b.selection[1] := false], [b.selection[0]])
  }

  /** A combination writes r into the first selected tile, hides the second,
    * changes no other tile, and leaves one tile fewer shown; on positive tiles
    * an enabled operator keeps every tile positive. */
  lemma CombinedEffect(b: Board, op: Op)
    requires Playable(b) && |b.selection| == 2
    requires !Disabled(op, b.values[b.selection[0]], b.values[b.selection[1]])
    ensures var a, c := b.selection[0], b.selection[1];
      var r := Apply(op, b.values[a], b.values[c]);
      var b' := Combined(b, r);
      && b'.values[a] == r && b'.visible[a] && !b'.visible[c]
      && (forall i :: 0 <= i < |b.values| && i != a ==> b'.values[i] == b.values[i])
      && (forall i :: 0 <= i < |b.values| && i != c ==> b'.visible[i] == b.visible[i])
      && b'.selection == [a]
      && CountVisible(b'.visible) == CountVisible(b.visible) - 1
      && ((forall i :: 0 <= i < |b.values| ==> b.values[i] > 0) ==>
            forall i :: 0 <= i < |b'.values| ==> b'.values[i] > 0)
  {
    var a, c := b.selection[0], b.selection[1];
    HideOne(b.visible, c);
  }

  /** A combination that does not win keeps the page consistent, with the
    * board before it on top of the stack. */
  lemma CombineConsistent(size: nat, b: Board, states: seq<Snapshot>, history: seq<Board>, buttons: Buttons, r: int)
    requires Consistent(size, b, states, history, false, buttons) && |b.selection| == 2
    ensures Consistent(size, Combined(b, r), states + [Capture(b)], history + [b], false,
                       ButtonsFor(Combined(b, r), false))
  {
    CombineKeepsPlayable(b, r, Combined(b, r));
    var states', history' := states + [Capture(b)], history + [b];
    forall j | 0 <= j < |states'|
      ensures Combinable(history'[j], size) && states'[j] == Capture(history'[j])
    {
      if j < |states| {
        assert states'[j] == states[j] && history'[j] == history[j];
      }
    }
  }

  /** Popping the stack and restoring the board beside the popped snapshot
    * keeps the page consistent. */
  lemma PopConsistent(size: nat, b: Board, states: seq<Snapshot>, history: seq<Board>, won: bool, buttons: Buttons)
    requires Consistent(size, b, states, history, won, buttons) && states != []
    ensures !won && |b.selection| <= 2
    ensures var n := |states| - 1;
            Consistent(size, history[n], states[..n], history[..n], false, ButtonsFor(history[n], n == 0))
    ensures var p := history[|states| - 1];
            && states[|states| - 1] == Capture(p)
            && |p.values| == size && |p.checked| == size && |p.visible| == size
            && |p.selection| == 2 && p.selection[0] != p.selection[1]
            && p.selection[0] < size && p.selection[1] < size
            && p.checked[p.selection[0]] && p.checked[p.selection[1]]
  {
    var n := |states| - 1;
    var p := history[n];
    assert Combinable(p, size);
    assert p.selection[0] != p.selection[1];
    assert states[..n] == [] <==> n == 0;
  }

  class Game {
    const target: int
    const size: nat

    var values: seq<int>
    var checked: seq<bool>
    var visible: seq<bool>
    var selection: seq<nat>
    var states: seq<Snapshot>
    var buttons: Buttons

    /** The game is over: the banner is up and every tile's control is disabled. */
    var won: bool

    /** The board each snapshot on the stack was taken from. */
    ghost var history: seq<Board>

    function Current(): Board
      reads this
    {
      Board(values, checked, visible, selection)
    }

    ghost predicate Valid()
      reads this
    {
      Consistent(size, Current(), states, history, won, buttons)
    }

    /** The page after loading: nothing checked, every tile shown, every
      * button disabled. */
    constructor (numbers: seq<int>, targetNumber: int)
      ensures Valid()
      ensures size == |numbers| && target == targetNumber
      ensures values == numbers && selection == [] && states == [] && !won
      ensures forall i :: 0 <= i < size ==> !checked[i] && visible[i]
      ensures buttons == Buttons(true, true, true, true, true)
    {
      target := targetNumber;
      size := |numbers|;
      values := numbers;
      checked := seq(|numbers|, _ => false);
      visible := seq(|numbers|, _ => true);
      selection := [];
      states := [];
      history := [];
      won := false;
      buttons := Buttons(true, true, true, true, true);
    }

    /** Enables the operator buttons legal for the selected pair and the undo
      * button when there is something to undo. */
    method UpdateButtons()
      requires forall k :: 0 <= k < |selection| ==> selection[k] < |values|
      modifies this`buttons
      ensures buttons == ButtonsFor(Current(), states == [])
      ensures |selection| == 2 ==>
        && !buttons.add && !buttons.mul
        && (buttons.sub <==> values[selection[0]] == values[selection[1]])
        && (buttons.div <==> Disabled(Div, values[selection[0]], values[selection[1]]))
      ensures |selection| != 2 ==> buttons.add && buttons.sub && buttons.mul && buttons.div
      ensures buttons.undo <==> states == []
    {
      var add, sub, mul, div;
      if |selection| == 2 {
        var x := values[selection[0]];
        var y := values[selection[1]];
        add := false;
        sub := x == y;
        mul := false;
        // a zero divisor makes the remainder NaN, which differs from 0
        div := if x > y then y == 0 || x % y != 0 else x == 0 || y % x != 0;
      } else {
        add, sub, mul, div := true, true, true, true;
      }
      buttons := Buttons(add, sub, mul, div, states == []);
    }

    /** Pushes a snapshot of every tile onto the undo stack. */
    method SaveState()
      requires |checked| == |values| && |visible| == |values|
      modifies this`states, this`history
      ensures states == old(states) + [Capture(Current())]
      ensures history == old(history) + [Current()]
    {
      var snap: Snapshot := [];
      for i := 0 to |values|
        invariant |snap| == i
        invariant forall j :: 0 <= j < i ==>
          snap[j] == TileState(values[j], checked[j], IndexOf(selection, j), visible[j])
      {
        snap := snap + [TileState(values[i], checked[i], IndexOf(selection, i), visible[i])];
      }
      assert snap == Capture(Current());
      states := states + [snap];
      history := history + [Current()];
    }

    /** The player checks or unchecks the box of a shown tile t: the browser
      * flips the box, then the selection follows it. */
    method Toggle(t: nat)
      requires Valid() && !won && t < size && visible[t]
      modifies this`checked, this`selection, this`buttons
      ensures Valid() && !won
      ensures Current() == Toggled(old(Current()), t)
    {
      ghost var before := Current();
      ghost var after := Toggled(before, t);
      var box, sel := FollowBox(Current(), t);
      ToggleConsistent(size, before, states, history, buttons, t);
      checked, selection := box, sel;
      assert Current() == after;
      UpdateButtons();
      assert buttons == ButtonsFor(after, states == []);
      assert !won;
      assert Consistent(size, Current(), states, history, won, buttons);
    }

    /** Ends the game: empties the selection and the undo stack, disables every
      * button and every tile's control. */
    method EndGame()
      requires |values| == size && |checked| == size && |visible| == size
      modifies this`selection, this`states, this`history, this`won, this`buttons
      ensures Valid()
      ensures won && selection == [] && states == [] && history == []
      ensures buttons == Buttons(true, true, true, true, true)
    {
      selection := [];
      states := [];
      history := [];
      UpdateButtons();
      won := true;
    }

    /** The player presses the enabled button of op with two tiles selected:
      * the first selected tile takes the result, the second one disappears,
      * and the board before the move goes onto the undo stack. Reaching the
      * target ends the game. */
    method Combine(op: Op)
      requires Valid() && |selection| == 2
      requires !Disabled(op, values[selection[0]], values[selection[1]])
      modifies this`values, this`visible, this`selection, this`states, this`history, this`won, this`buttons
      ensures Valid()
      ensures var b := old(Current());
              var r := Apply(op, b.values[b.selection[0]], b.values[b.selection[1]]);
              && won == (r == target)
              && values == Combined(b, r).values && visible == Combined(b, r).visible
              && (!won ==> Current() == Combined(b, r)
                           && states == old(states) + [Capture(b)] && history == old(history) + [b])
              && (won ==> selection == [] && states == [] && history == []
                          && buttons == Buttons(true, true, true, true, true))
    {
      var a, b := selection[0], selection[1];
      var result := Apply(op, values[a], values[b]);
      ghost var before := Current();
      ghost var after := Combined(before, result);
      ghost var states', history' := states + [Capture(before)], history + [before];
      assert !won;
      CombineConsistent(size, before, states, history, buttons, result);
      SaveState();
      assert states == states' && history == history';
      selection := selection[..1];
      visible := visible[b := false];
      UpdateButtons();
      values := values[a := result];
      assert Current() == after;
      assert buttons == ButtonsFor(after, false);
      if result == target {
        EndGame();
      } else {
        assert Consistent(size, after, states', history', false, ButtonsFor(after, false));
      }
    }

    /** Writes every tile of a snapshot back, then refreshes the buttons. A
      * tile the snapshot records as checked writes its selection index; for
      * the checked tile a combination hid, that index is -1, which names no
      * element of the selection. */
    method RestoreState(snap: Snapshot, ghost board: Board)
      requires |board.values| == size && |board.checked| == size && |board.visible| == size
      requires |board.selection| == 2 && board.selection[0] != board.selection[1]
      requires board.selection[0] < size && board.selection[1] < size
      requires board.checked[board.selection[0]] && board.checked[board.selection[1]]
      requires snap == Capture(board)
      requires |values| == size && |checked| == size && |visible| == size && |selection| <= 2
      modifies this`values, this`checked, this`visible, this`selection, this`buttons
      ensures Current() == board
      ensures buttons == ButtonsFor(board, states == [])
    {
      ghost var sel := board.selection;
      ghost var cur := selection;
      var vals, box, vis := values, checked, visible;
      var slots := Slots(selection);
      for i := 0 to |snap|
        invariant Restored(vals, box, vis, slots, cur, board, i)
      {
        var ts := snap[i];
        assert ts == TileState(board.values[i], board.checked[i], IndexOf(sel, i), board.visible[i]);
        RestoreTile(vals, box, vis, slots, cur, board, i);
        if ts.selected {
          slots := WriteAt(slots, ts.selectionIndex, i);
        }
        vals := vals[i := ts.number];
        box := box[i := ts.selected];
        vis := vis[i := ts.visible];
      }
      RestoredAll(vals, box, vis, slots, cur, board, size);
      var restored := Dense(slots);
      values, checked, visible, selection := vals, box, vis, restored;
      assert Current() == board;
      UpdateButtons();
    }

    /** The player presses undo: the last snapshot comes off the stack and
      * every tile, the selection and the buttons return to what they were
      * before the matching combination. */
    method Undo()
      requires Valid() && states != []
      modifies this`values, this`checked, this`visible, this`selection, this`states, this`history, this`buttons
      ensures Valid() && !won
      ensures states == old(states)[..|old(states)| - 1]
      ensures history == old(history)[..|old(history)| - 1]
      ensures Current() == old(history)[|old(history)| - 1]
    {
      var n := |states| - 1;
      ghost var board := history[n];
      PopConsistent(size, Current(), states, history, won, buttons);
      var snap := states[n];
      states := states[..n];
      history := history[..n];
      RestoreState(snap, board);
      assert Current() == board && buttons == ButtonsFor(board, n == 0);
      assert Consistent(size, board, states, history, false, buttons);
    }
  }

  /** The selection array once the tiles before i have been restored from
    * a snapshot taken with selection sel over a current selection cur: the
    * writes so far reach one past the last restored position, and the slots
    * not yet written keep cur's tile or are holes. */
  ghost predicate RestoredUpTo(slots: seq<Slot>, cur: seq<nat>, sel: seq<nat>, i: nat)
    requires |sel| == 2
  {
    var reach := if sel[1] < i then 2 else if sel[0] < i then 1 else 0;
    && |slots| == (if |cur| > reach then |cur| else reach)
    && forall k :: 0 <= k < |slots| ==>
         k < 2 && slots[k] == (if sel[k] < i then Tile(sel[k]) else if k < |cur| then Tile(cur[k]) else Hole)
  }

  /** Restoring tile i, whose record says whether it was checked, extends
    * the restored prefix; a tile of the selection was checked. */
  lemma RestoreStep(slots: seq<Slot>, cur: seq<nat>, sel: seq<nat>, i: nat, selected: bool)
    requires |sel| == 2 && sel[0] != sel[1] && |cur| <= 2
    requires i in sel ==> selected
    requires RestoredUpTo(slots, cur, sel, i)
    ensures RestoredUpTo(if selected then WriteAt(slots, IndexOf(sel, i), i) else slots, cur, sel, i + 1)
  {
    var slots' := if selected then WriteAt(slots, IndexOf(sel, i), i) else slots;
    if i == sel[0] {
      assert IndexOf(sel, i) == 0;
    } else if i == sel[1] {
      assert IndexOf(sel, i) == 1;
    } else {
      assert slots' == slots;
    }
  }

  /** The tiles before i have their number, box and visibility back from
    * board, and the selection array is restored up to i. */
  ghost predicate Restored(vals: seq<int>, box: seq<bool>, vis: seq<bool>, slots: seq<Slot>,
                           cur: seq<nat>, board: Board, i: nat)
    requires |board.selection| == 2
  {
    && |board.checked| == |board.values| && |board.visible| == |board.values|
    && |vals| == |board.values| && |box| == |board.values| && |vis| == |board.values|
    && (forall j :: 0 <= j < i && j < |vals| ==> vals[j] == board.values[j])
    && (forall j :: 0 <= j < i && j < |box| ==> box[j] == board.checked[j])
    && (forall j :: 0 <= j < i && j < |vis| ==> vis[j] == board.visible[j])
    && RestoredUpTo(slots, cur, board.selection, i)
  }

  /** Restoring tile i from its record extends the restored prefix. */
  lemma RestoreTile(vals: seq<int>, box: seq<bool>, vis: seq<bool>, slots: seq<Slot>,
                    cur: seq<nat>, board: Board, i: nat)
    requires |board.selection| == 2 && board.selection[0] != board.selection[1] && |cur| <= 2
    requires i < |board.values| && |board.checked| == |board.values| && |board.visible| == |board.values|
    requires board.selection[0] < |board.values| && board.selection[1] < |board.values|
    requires board.checked[board.selection[0]] && board.checked[board.selection[1]]
    requires Restored(vals, box, vis, slots, cur, board, i)
    ensures Restored(vals[i := board.values[i]], box[i := board.checked[i]], vis[i := board.visible[i]],
                     if board.checked[i] then WriteAt(slots, IndexOf(board.selection, i), i) else slots,
                     cur, board, i + 1)
  {
    PrefixGrows(vals, board.values, i);
    PrefixGrows(box, board.checked, i);
    PrefixGrows(vis, board.visible, i);
    RestoreStep(slots, cur, board.selection, i, board.checked[i]);
  }

  /** Writing b's element i into a, whose first i elements agree with b,
    * makes the first i + 1 agree. */
  lemma PrefixGrows<T>(a: seq<T>, b: seq<T>, i: nat)
    requires |a| == |b| && i < |a|
    requires forall j :: 0 <= j < i && j < |a| ==> a[j] == b[j]
    ensures forall j :: 0 <= j < i + 1 && j < |a| ==> a[i := b[i]][j] == b[j]
  {
  }

  /** Once all n tiles are restored, the board is back. */
  lemma RestoredAll(vals: seq<int>, box: seq<bool>, vis: seq<bool>, slots: seq<Slot>,
                    cur: seq<nat>, board: Board, n: nat)
    requires |board.selection| == 2 && board.selection[0] < n && board.selection[1] < n && |cur| <= 2
    requires |board.values| == n
    requires Restored(vals, box, vis, slots, cur, board, n)
    ensures vals == board.values && box == board.checked && vis == board.visible
    ensures forall k :: 0 <= k < |slots| ==> slots[k].Tile?
    ensures Dense(slots) == board.selection
  {
    RestoreDone(slots, cur, board.selection, n);
  }

  /** Once every one of the n tiles is restored, the selection array has no
    * hole and holds the snapshot's selection. */
  lemma RestoreDone(slots: seq<Slot>, cur: seq<nat>, sel: seq<nat>, n: nat)
    requires |sel| == 2 && sel[0] < n && sel[1] < n && |cur| <= 2
    requires RestoredUpTo(slots, cur, sel, n)
    ensures forall k :: 0 <= k < |slots| ==> slots[k].Tile?
    ensures Dense(slots) == sel
  {
    assert |slots| == 2;
    var d := Dense(slots);
    assert d[0] == sel[0] && d[1] == sel[1];
  }


  /** Pressing an enabled operator and then undo gives back the board and the
    * undo stack as they were, unless the move won the game. */
  method CombineThenUndo(g: Game, op: Op)
    requires g.Valid() && |g.selection| == 2
    requires !Disabled(op, g.values[g.selection[0]], g.values[g.selection[1]])
    requires Apply(op, g.values[g.selection[0]], g.values[g.selection[1]]) != g.target
    modifies g
    ensures g.Valid() && !g.won
    ensures g.Current() == old(g.Current()) && g.states == old(g.states)
  {
    g.Combine(op);
    g.Undo();
  }
}
