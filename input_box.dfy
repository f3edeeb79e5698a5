/**
 * The text field: a string and a cursor edited by the keys of one frame.
 * Printable characters are inserted at the cursor, backspace erases the
 * character before it, the arrow keys move it, and the cursor always stays
 * within 0..|value|.
 */
module InputBox {
  import opened Wrappers

  /** Height of the field's box, used by the mouse hit-test. */
  const HEIGHT: int := 20

  /** A character code from the window system's queue of typed characters. */
  type KeyCode = k: int | k > 0 witness 1

  predicate IsPrintable(key: KeyCode) { 32 <= key <= 126 }

  /** What the window system reports for one frame. */
  datatype Frame = Frame(
    mouseX: real,
    mouseY: real,
    mousePressed: bool,
    chars: seq<KeyCode>,
    backspace: bool,
    left: bool,
    right: bool,
    enter: bool)

  datatype Field = Field(value: string, cursor: int)

  predicate CursorInRange(f: Field) { 0 <= f.cursor <= |f.value| }

  /** The printable characters of `keys`, in order. */
  function Printable(keys: seq<KeyCode>): (s: string)
    ensures |s| <= |keys|
    ensures forall k :: 0 <= k < |s| ==> 32 <= s[k] as int <= 126
  {
    if keys == [] then ""
    else
      var last := keys[|keys| - 1];
      Printable(keys[..|keys| - 1]) + (if IsPrintable(last) then [last as char] else "")
  }

  /** One typed character. */
  function InsertKey(f: Field, key: KeyCode): (r: Field)
    requires CursorInRange(f)
    ensures CursorInRange(r)
    ensures IsPrintable(key) ==>
      && |r.value| == |f.value| + 1 && r.cursor == f.cursor + 1
      && r.value[f.cursor] == key as char
      && r.value[..f.cursor] == f.value[..f.cursor] && r.value[r.cursor..] == f.value[f.cursor..]
    ensures !IsPrintable(key) ==> r == f
  {
    if IsPrintable(key) then Field(f.value[..f.cursor] + [key as char] + f.value[f.cursor..], f.cursor + 1)
    else f
  }

  /** The characters of one frame, typed in order. */
  function InsertKeys(f: Field, keys: seq<KeyCode>): (r: Field)
    requires CursorInRange(f)
    ensures CursorInRange(r)
  {
    if keys == [] then f else InsertKey(InsertKeys(f, keys[..|keys| - 1]), keys[|keys| - 1])
  }

  /** Typing a run of keys inserts exactly its printable characters at the cursor and moves past them. */
  lemma {:induction false} InsertKeysInsertsPrintable(f: Field, keys: seq<KeyCode>)
    requires CursorInRange(f)
    ensures InsertKeys(f, keys) ==
      Field(f.value[..f.cursor] + Printable(keys) + f.value[f.cursor..], f.cursor + |Printable(keys)|)
  {
    if keys != [] {
      var init, last := keys[..|keys| - 1], keys[|keys| - 1];
      InsertKeysInsertsPrintable(f, init);
      var g := InsertKeys(f, init);
      var p := Printable(init);
      var pre, suf := f.value[..f.cursor], f.value[f.cursor..];
      assert g.cursor == f.cursor + |p|;
      assert g.value[..g.cursor] == pre + p;
      assert g.value[g.cursor..] == suf;
      if IsPrintable(last) {
        var ch := last as char;
        calc {
          InsertKeys(f, keys);
          InsertKey(g, last);
          Field(g.value[..g.cursor] + [ch] + g.value[g.cursor..], g.cursor + 1);
          Field(pre + p + [ch] + suf, f.cursor + |p| + 1);
          { assert pre + p + [ch] == pre + (p + [ch]); }
          Field(pre + (p + [ch]) + suf, f.cursor + |p + [ch]|);
          { assert Printable(keys) == p + [ch]; }
          Field(pre + Printable(keys) + suf, f.cursor + |Printable(keys)|);
        }
      } else {
        assert Printable(keys) == p;
        assert InsertKeys(f, keys) == g;
      }
    }
  }

  /** Backspace: erase the character before the cursor, if there is one. */
  function Backspace(f: Field): (r: Field)
    requires CursorInRange(f)
    ensures CursorInRange(r)
    ensures f.cursor > 0 ==>
      && r.cursor == f.cursor - 1 && |r.value| == |f.value| - 1
      && r.value[..r.cursor] == f.value[..f.cursor - 1] && r.value[r.cursor..] == f.value[f.cursor..]
    ensures f.cursor == 0 ==> r == f
  {
    if f.cursor > 0 then Field(f.value[..f.cursor - 1] + f.value[f.cursor..], f.cursor - 1) else f
  }

  function MoveLeft(f: Field): (r: Field)
    requires CursorInRange(f)
    ensures CursorInRange(r) && r.value == f.value
    ensures r.cursor == if f.cursor > 0 then f.cursor - 1 else 0
  {
    if f.cursor > 0 then f.(cursor := f.cursor - 1) else f
  }

  function MoveRight(f: Field): (r: Field)
    requires CursorInRange(f)
    ensures CursorInRange(r) && r.value == f.value
    ensures r.cursor == if f.cursor < |f.value| then f.cursor + 1 else |f.value|
  {
    if f.cursor < |f.value| then f.(cursor := f.cursor + 1) else f
  }

  /** The edits of one frame on an active field, and whether any of them typed or erased. */
  function Edit(f: Field, frame: Frame): (r: (Field, bool))
    requires CursorInRange(f)
    ensures CursorInRange(r.0)
  {
    var typed := InsertKeys(f, frame.chars);
    var erased := if frame.backspace then Backspace(typed) else typed;
    var left := if frame.left then MoveLeft(erased) else erased;
    var right := if frame.right then MoveRight(left) else left;
    (right, Printable(frame.chars) != [] || (frame.backspace && typed.cursor > 0))
  }

  /** The edit flag is raised exactly when a printable key arrived or backspace erased something. */
  lemma EditChangedFlag(f: Field, frame: Frame)
    requires CursorInRange(f)
    ensures Edit(f, frame).1 <==>
      Printable(frame.chars) != [] || (frame.backspace && f.cursor + |Printable(frame.chars)| > 0)
  {
    InsertKeysInsertsPrintable(f, frame.chars);
  }

  /** An edit that leaves the value different always raises the flag. */
  lemma {:induction false} ValueChangeRaisesFlag(f: Field, frame: Frame)
    requires CursorInRange(f)
    requires Edit(f, frame).0.value != f.value
    ensures Edit(f, frame).1
  {
    InsertKeysInsertsPrintable(f, frame.chars);
    if Printable(frame.chars) == [] {
      assert f.value[..f.cursor] + f.value[f.cursor..] == f.value;
    }
  }

  /** The flag is not a comparison of values: typing a character and erasing it raises it too. */
  lemma TypeThenEraseRaisesFlag()
    ensures var frame := Frame(0.0, 0.0, false, [99], true, false, false, false);
      Edit(Field("ab", 2), frame) == (Field("ab", 2), true)
  {
    var frame := Frame(0.0, 0.0, false, [99], true, false, false, false);
    assert frame.chars[..0] == [];
    assert InsertKeys(Field("ab", 2), frame.chars) == Field("abc", 3);
    assert Backspace(Field("abc", 3)) == Field("ab", 2);
  }

  /**
   * The loop over one frame's queue of typed characters: inserts each
   * printable one at the cursor and reports whether any was.
   */
  method TypeChars(f: Field, keys: seq<KeyCode>) returns (r: Field, changed: bool)
    requires CursorInRange(f)
    ensures r == InsertKeys(f, keys)
    ensures changed == (Printable(keys) != [])
  {
    var v, cur := f.value, f.cursor;
    changed := false;
    var i := 0;
    while i < |keys|
      invariant 0 <= i <= |keys|
      invariant Field(v, cur) == InsertKeys(f, keys[..i])
      invariant changed == (Printable(keys[..i]) != [])
    {
      var key := keys[i];
      if 32 <= key <= 126 {
        v := v[..cur] + [key as char] + v[cur..];
        cur := cur + 1;
        changed := true;
      }
      assert keys[..i + 1][..i] == keys[..i];
      i := i + 1;
    }
    assert keys[..i] == keys;
    r := Field(v, cur);
  }

  /** The edits of one frame, step by step: typing, backspace, then the arrows. */
  method EditField(f: Field, frame: Frame) returns (r: Field, changed: bool)
    requires CursorInRange(f)
    ensures (r, changed) == Edit(f, frame)
  {
    var typed;
    typed, changed := TypeChars(f, frame.chars);
    var v, cur := typed.value, typed.cursor;
    if frame.backspace && cur > 0 {
      v := v[..cur - 1] + v[cur..];
      cur := cur - 1;
      changed := true;
    }
    if frame.left && cur > 0 {
      cur := cur - 1;
    }
    if frame.right && cur < |v| {
      cur := cur + 1;
    }
    r := Field(v, cur);
  }

  /** The mouse hit-test: the closed rectangle of the field. */
  predicate Inside(x: int, y: int, w: int, mouseX: real, mouseY: real): (hit: bool)
    ensures hit ==> w >= 0
  {
    x as real <= mouseX <= (x + w) as real && y as real <= mouseY <= (y + HEIGHT) as real
  }

  /** The rectangle is closed: its corners are hits, and points just past an edge are not. */
  lemma InsideIsClosedRectangle(x: int, y: int, w: int)
    requires w >= 0
    ensures Inside(x, y, w, x as real, y as real)
    ensures Inside(x, y, w, (x + w) as real, (y + HEIGHT) as real)
    ensures !Inside(x, y, w, x as real - 0.5, y as real)
    ensures !Inside(x, y, w, x as real, (y + HEIGHT) as real + 0.5)
  {
  }

  /** Whether the callback runs: on any edit in realtime mode, on Enter otherwise. */
  predicate Fires(realtime: bool, hasCallback: bool, changed: bool, enter: bool): (run: bool)
    ensures run ==> hasCallback
    ensures run ==> changed || enter
  {
    hasCallback && (if realtime then changed else enter)
  }

  class Input {
    const x: int
    const y: int
    const w: int
    var value: string
    var active: bool
    var cursor: int
    const hasCallback: bool
    const realtime: bool

    ghost predicate Valid()
      reads this
    {
      CursorInRange(Field(value, cursor))
    }

    constructor (x: int, y: int, w: int, value: string, hasCallback: bool, realtime: bool)
      ensures Valid()
      ensures this.x == x && this.y == y && this.w == w && this.value == value
      ensures cursor == |value| && !active
      ensures this.hasCallback == hasCallback && this.realtime == realtime
    {
      this.x, this.y, this.w := x, y, w;
      this.value := value;
      active := false;
      cursor := |value|;
      this.hasCallback, this.realtime := hasCallback, realtime;
    }

    /**
     * One frame of input. Returns the value handed to the callback, if the
     * callback runs.
     */
    method Update(frame: Frame) returns (fired: Option<string>)
      requires Valid()
      modifies this
      ensures Valid()
      ensures active == if frame.mousePressed then Inside(x, y, w, frame.mouseX, frame.mouseY) else old(active)
      ensures !active ==> value == old(value) && cursor == old(cursor) && fired == None
      ensures active ==> Field(value, cursor) == Edit(Field(old(value), old(cursor)), frame).0
      ensures active ==>
        fired == if Fires(realtime, hasCallback, Edit(Field(old(value), old(cursor)), frame).1, frame.enter)
                 then Some(value) else None
    {
      if frame.mousePressed {
        active := Inside(x, y, w, frame.mouseX, frame.mouseY);
      }
      fired := None;
      if !active {
        return;
      }
      var edited, changed := EditField(Field(value, cursor), frame);
      value, cursor := edited.value, edited.cursor;
      if hasCallback {
        if realtime && changed {
          fired := Some(value);
        } else if !realtime && frame.enter {
          fired := Some(value);
        }
      }
    }
  }
}
