/** TextInputHandler: a byte-level editor that refines an editor over code points. */
module TextInput {
  import opened Common
  import opened Utf8

  datatype Key = LeftShift | RightShift | Right | Left | Home | End | Other
  datatype Action = Press | Repeat | Release

  const BACKSPACE: CodePoint := 8
  const DELETE: CodePoint := 127

  /** What the handler is to its user: code points, a cursor and a selection anchor. `drift` is by how much
      the handler's own count of the code points before the cursor is too high. */
  datatype Editor = Editor(text: seq<CodePoint>, cursor: nat, anchor: nat, enabled: bool, multiline: bool, shift: bool,
                           drift: nat) {
    predicate Ok() { cursor <= |text| && anchor <= |text| }

    function Showing(cs: seq<CodePoint>): Editor {
      this.(text := cs, cursor := |cs|, anchor := |cs|, drift := 3 * Astral(cs))
    }

    /** A drifted count lets a backspace through although nothing precedes the cursor, and the handler then
        reads before the start of its text. */
    predicate Accepts(cs: seq<CodePoint>) { enabled && cs == [BACKSPACE] && cursor == 0 ==> drift == 0 }

    function Typed(cs: seq<CodePoint>): Editor
      requires cursor <= |text|
    {
      if !enabled then this
      else if cs == [BACKSPACE] then
        if cursor == 0 then this
        else this.(text := text[..cursor - 1] + text[cursor..], cursor := cursor - 1, anchor := cursor - 1)
      else if cs == [DELETE] then
        if cursor == |text| then this
        else this.(text := text[..cursor] + text[cursor + 1..], anchor := cursor)
      else
        this.(text := text[..cursor] + cs + text[cursor..], cursor := cursor + |cs|, anchor := cursor + |cs|,
              drift := drift + 3 * Astral(cs))
    }

    function Pressed(key: Key, action: Action): Editor {
      var e := if key.LeftShift? || key.RightShift? then this.(shift := !action.Release?) else this;
      if action.Release? || !CanMove(key) then e
      else if e.shift then e.(cursor := Moved(key), drift := Drifted(key))
      else e.(cursor := Moved(key), anchor := Moved(key), drift := Drifted(key))
    }

    predicate CanMove(key: Key) { (key.Right? ==> cursor < |text|) && (key.Left? ==> cursor > 0) }

    function Moved(key: Key): nat
      requires CanMove(key)
    {
      match key
      case Right => cursor + 1
      case Left => cursor - 1
      case Home => 0
      case End => |text|
      case _ => cursor
    }

    function Drifted(key: Key): nat {
      if key.Home? then 0 else if key.End? then 3 * Astral(text) else drift
    }

    /** The selected code points, or everything if nothing is selected. */
    function Copied(): seq<CodePoint>
      requires cursor <= |text| && anchor <= |text|
    {
      if anchor < cursor then text[anchor..cursor] else if cursor < anchor then text[cursor..anchor] else text
    }
  }

  // ---- bytes and code points ----

  lemma Removed(cs: seq<CodePoint>, a: nat, b: nat)
    requires a <= b <= |cs|
    ensures Offset(cs, a) <= |EncodeAll(cs)| && Offset(cs, b) <= |EncodeAll(cs)|
    ensures EncodeAll(cs)[..Offset(cs, a)] + EncodeAll(cs)[Offset(cs, b)..] == EncodeAll(cs[..a] + cs[b..])
    ensures Offset(cs[..a] + cs[b..], a) == Offset(cs, a)
  {
    CutAt(cs, a);
    CutAt(cs, b);
    EncodeConcat(cs[..a], cs[b..]);
    assert (cs[..a] + cs[b..])[..a] == cs[..a];
  }

  lemma Inserted(cs: seq<CodePoint>, k: nat, t: seq<CodePoint>)
    requires k <= |cs|
    ensures Offset(cs, k) <= |EncodeAll(cs)|
    ensures EncodeAll(cs)[..Offset(cs, k)] + EncodeAll(t) + EncodeAll(cs)[Offset(cs, k)..] ==
            EncodeAll(cs[..k] + t + cs[k..])
    ensures Offset(cs[..k] + t + cs[k..], k + |t|) == Offset(cs, k) + |EncodeAll(t)|
  {
    CutAt(cs, k);
    EncodeConcat(cs[..k] + t, cs[k..]);
    EncodeConcat(cs[..k], t);
    assert (cs[..k] + t + cs[k..])[..k + |t|] == cs[..k] + t;
  }

  lemma Between(cs: seq<CodePoint>, a: nat, b: nat)
    requires a <= b <= |cs|
    ensures Offset(cs, a) <= Offset(cs, b) <= |EncodeAll(cs)|
    ensures EncodeAll(cs)[Offset(cs, a)..Offset(cs, b)] == EncodeAll(cs[a..b])
  {
    CutAt(cs, b);
    CutAt(cs[..b], a);
    hide EncodeAll;
    assert cs[..b][..a] == cs[..a] && cs[..b][a..] == cs[a..b];
    var e := EncodeAll(cs);
    assert e[..Offset(cs, b)][Offset(cs, a)..] == e[Offset(cs, a)..Offset(cs, b)];
  }

  lemma {:induction false} OffsetsDistinct(cs: seq<CodePoint>, a: nat, b: nat)
    requires a < b <= |cs|
    ensures Offset(cs, a) < Offset(cs, b)
  {
    if a + 1 < b { OffsetsDistinct(cs, a, b - 1); }
    CharAt(cs, b - 1);
    Between(cs, a, b - 1);
  }

  /** A single control byte is that control character. */
  lemma ControlByte(cs: seq<CodePoint>, c: CodePoint)
    requires c < 0x80
    ensures EncodeAll(cs) == [c as bv8] <==> cs == [c]
  {
    EncodeOne(c);
    if EncodeAll(cs) == [c as bv8] { EncodeInjective(cs, [c]); }
  }

  /** Offsets are exactly where the non-continuation bytes are. */
  lemma Boundaries(cs: seq<CodePoint>, k: nat)
    requires k < |cs|
    ensures var b, o, o' := EncodeAll(cs), Offset(cs, k), Offset(cs, k + 1);
            o < o' <= |b| && !IsContinuation(b[o]) && forall i :: o < i < o' ==> IsContinuation(b[i])
  {
    hide Encode, EncodeAll, IsContinuation;
    CharAt(cs, k);
    var b, o, o' := EncodeAll(cs), Offset(cs, k), Offset(cs, k + 1);
    assert forall i :: o <= i < o' ==> b[i] == b[o..o'][i - o];
  }

  /** Scans left over continuation bytes. */
  method CharStart(text: Bytes, pos: nat, ghost cs: seq<CodePoint>, ghost k: nat) returns (start: nat)
    requires text == EncodeAll(cs) && 0 < k <= |cs| && pos == Offset(cs, k)
    ensures start == Offset(cs, k - 1) && start < pos <= |text|
  {
    hide EncodeAll, Offset, IsContinuation;
    Boundaries(cs, k - 1);
    start := pos - 1;
    while start > 0 && IsContinuation(text[start])
      invariant Offset(cs, k - 1) <= start < pos
    {
      start := start - 1;
    }
  }

  /** Scans right over continuation bytes. */
  method CharEnd(text: Bytes, pos: nat, ghost cs: seq<CodePoint>, ghost k: nat) returns (end: nat)
    requires text == EncodeAll(cs) && k < |cs| && pos == Offset(cs, k)
    ensures end == Offset(cs, k + 1) && pos < end <= |text|
  {
    LastOffset(cs);
    hide EncodeAll, Offset, IsContinuation;
    Boundaries(cs, k);
    if k + 1 < |cs| { Boundaries(cs, k + 1); }
    end := pos + 1;
    while end < |text| && IsContinuation(text[end])
      invariant pos < end <= Offset(cs, k + 1)
    {
      end := end + 1;
    }
  }

  lemma LastOffset(cs: seq<CodePoint>)
    ensures Offset(cs, |cs|) == |EncodeAll(cs)| && Offset(cs, 0) == 0
  {
    assert cs[..|cs|] == cs;
  }

  // ---- the handler ----

  class TextInputHandler {
    var enabled: bool
    var multiline: bool
    var shiftPressed: bool
    var currentText: Bytes
    var currentTextPosition: nat
    var currentTextPositionUTF: nat
    var currentTextCopyPosition: nat
    /** The texts passed to the update callback. */
    var updates: seq<Bytes>

    /** The editor that this handler implements. */
    ghost var editor: Editor

    /** The text is the encoding of the editor's, both byte positions are on character boundaries, and
        the UTF position is the number of code points before the cursor plus the drift. */
    ghost predicate Valid()
      reads this
    {
      editor.Ok() && currentText == EncodeAll(editor.text)
      && currentTextPosition == Offset(editor.text, editor.cursor)
      && currentTextPositionUTF == editor.cursor + editor.drift
      && currentTextCopyPosition == Offset(editor.text, editor.anchor)
      && enabled == editor.enabled && multiline == editor.multiline && shiftPressed == editor.shift
    }

    constructor ()
      ensures Valid() && editor == Editor([], 0, 0, false, false, false, 0) && updates == []
    {
      enabled, multiline, shiftPressed, currentText, updates := false, false, false, [], [];
      currentTextPosition, currentTextPositionUTF, currentTextCopyPosition := 0, 0, 0;
      editor := Editor([], 0, 0, false, false, false, 0);
    }

    method Enable(text: Bytes, multiline: bool, ghost cs: seq<CodePoint>)
      requires Valid() && text == EncodeAll(cs)
      modifies this
      ensures Valid() && editor == old(editor).(enabled := true, multiline := multiline).Showing(cs)
      ensures updates == old(updates)
    {
      enabled := true;
      this.multiline := multiline;
      editor := editor.(enabled := true, multiline := multiline);
      Update(text, cs);
    }

    method Update(text: Bytes, ghost cs: seq<CodePoint>)
      requires Valid() && text == EncodeAll(cs)
      modifies this
      ensures Valid() && editor == old(editor).Showing(cs) && updates == old(updates)
    {
      hide EncodeAll, Counted, Astral;
      currentText := text;
      currentTextPosition := |text|;
      currentTextPositionUTF := GetLength(text);
      currentTextCopyPosition := currentTextPosition;
      CountedText(cs);
      LastOffset(cs);
      editor := editor.Showing(cs);
    }

    method Disable()
      requires Valid()
      modifies this
      ensures Valid() && editor == old(editor).(enabled := false).Showing([]) && updates == old(updates)
    {
      currentText := [];
      currentTextPosition := 0;
      currentTextPositionUTF := 0;
      currentTextCopyPosition := 0;
      enabled := false;
      editor := editor.(enabled := false).Showing([]);
    }

    /** Text input, with the two control characters acting on one code point each. The new text goes to
        the callback unless there was nothing to delete; while disabled the input itself does. The result is
        false for the backspace that reads before the start of the text, where the model stops. */
    method OnTextInput(text: Bytes, ghost cs: seq<CodePoint>) returns (inBounds: bool)
      requires Valid() && text == EncodeAll(cs)
      modifies this
      ensures Valid() && (inBounds <==> old(editor).Accepts(cs))
      ensures editor == if inBounds then old(editor).Typed(cs) else old(editor)
      ensures updates == old(updates) + if inBounds then Notified(old(editor), cs) else []
      ensures !enabled ==> updates == old(updates) + [text] && currentText == old(currentText)
      ensures enabled && updates != old(updates) ==> updates == old(updates) + [currentText]
      ensures currentText != old(currentText) ==> enabled && updates != old(updates)
    {
      hide EncodeAll, Offset, Counted, Encode, Astral;
      ControlByte(cs, BACKSPACE);
      ControlByte(cs, DELETE);
      inBounds := true;
      if !enabled {
        updates := updates + [text];
        return;
      }
      if |text| == 1 && text[0] == 8 {
        assert text == [8];
        if currentTextPositionUTF <= 0 {
          return;
        }
        LastOffset(editor.text);
        if 0 < editor.cursor { OffsetsDistinct(editor.text, 0, editor.cursor); }
        if currentTextPosition == 0 {
          return false;
        }
        Backspace();
      } else if |text| == 1 && text[0] == 127 {
        assert text == [127];
        LastOffset(editor.text);
        if editor.cursor < |editor.text| { OffsetsDistinct(editor.text, editor.cursor, |editor.text|); }
        if currentTextPosition >= |currentText| {
          return;
        }
        DeleteForward();
      } else {
        Insert(text, cs);
      }
      updates := updates + [currentText];
    }

    method Backspace()
      requires Valid() && enabled && editor.cursor > 0
      modifies this
      ensures Valid() && editor == old(editor).Typed([BACKSPACE]) && updates == old(updates)
    {
      hide EncodeAll, Offset, Encode;
      ghost var e := editor;
      Removed(e.text, e.cursor - 1, e.cursor);
      currentTextPositionUTF := currentTextPositionUTF - 1;
      var deleteStart := CharStart(currentText, currentTextPosition, e.text, e.cursor);
      currentText := currentText[..deleteStart] + currentText[currentTextPosition..];
      currentTextPosition := deleteStart;
      currentTextCopyPosition := currentTextPosition;
      editor := e.Typed([BACKSPACE]);
    }

    method DeleteForward()
      requires Valid() && enabled && editor.cursor < |editor.text|
      modifies this
      ensures Valid() && editor == old(editor).Typed([DELETE]) && updates == old(updates)
    {
      hide EncodeAll, Offset, Encode;
      ghost var e := editor;
      Removed(e.text, e.cursor, e.cursor + 1);
      var deleteEnd := CharEnd(currentText, currentTextPosition, e.text, e.cursor);
      currentText := currentText[..currentTextPosition] + currentText[deleteEnd..];
      currentTextCopyPosition := currentTextPosition;
      editor := e.Typed([DELETE]);
    }

    method Insert(text: Bytes, ghost cs: seq<CodePoint>)
      requires Valid() && enabled && text == EncodeAll(cs) && cs != [BACKSPACE] && cs != [DELETE]
      modifies this
      ensures Valid() && editor == old(editor).Typed(cs) && updates == old(updates)
    {
      hide EncodeAll, Offset, Encode, Counted, Astral;
      ghost var e := editor;
      Inserted(e.text, e.cursor, cs);
      CountedText(cs);
      currentText := currentText[..currentTextPosition] + text + currentText[currentTextPosition..];
      currentTextPosition := currentTextPosition + |text|;
      var n := GetLength(text);
      currentTextPositionUTF := currentTextPositionUTF + n;
      currentTextCopyPosition := currentTextPosition;
      editor := e.Typed(cs);
    }

    method OnKeyPressed(key: Key, action: Action)
      requires Valid()
      modifies this
      ensures Valid() && editor == old(editor).Pressed(key, action) && updates == old(updates)
    {
      hide EncodeAll, Offset, Astral;
      ghost var e := editor;
      if key == LeftShift || key == RightShift {
        shiftPressed := action != Release;
        editor := editor.(shift := shiftPressed);
      }
      if action != Press && action != Repeat {
        return;
      }
      var moved := MoveCursor(key);
      if !moved {
        return;
      }
      if !shiftPressed {
        currentTextCopyPosition := currentTextPosition;
        editor := editor.(anchor := editor.cursor);
      }
    }

    /** Moves by one code point or to an end of the text; false if there is nowhere to go. */
    method MoveCursor(key: Key) returns (moved: bool)
      requires Valid()
      modifies this`currentTextPosition, this`currentTextPositionUTF, this`editor
      ensures Valid() && (moved <==> old(editor).CanMove(key))
      ensures editor == if moved then old(editor).(cursor := old(editor).Moved(key), drift := old(editor).Drifted(key))
                        else old(editor)
    {
      hide EncodeAll, Offset, Counted, Astral;
      ghost var e := editor;
      LastOffset(e.text);
      if key == Right {
        if e.cursor < |e.text| { OffsetsDistinct(e.text, e.cursor, |e.text|); }
        if currentTextPosition >= |currentText| {
          return false;
        }
        currentTextPosition := CharEnd(currentText, currentTextPosition, e.text, e.cursor);
        currentTextPositionUTF := currentTextPositionUTF + 1;
      } else if key == Left {
        if 0 < e.cursor { OffsetsDistinct(e.text, 0, e.cursor); }
        if currentTextPosition <= 0 {
          return false;
        }
        currentTextPosition := CharStart(currentText, currentTextPosition, e.text, e.cursor);
        currentTextPositionUTF := currentTextPositionUTF - 1;
      } else if key == Home {
        currentTextPosition := 0;
        currentTextPositionUTF := 0;
      } else if key == End {
        CountedText(e.text);
        currentTextPosition := |currentText|;
        currentTextPositionUTF := GetLength(currentText);
      }
      editor := e.(cursor := e.Moved(key), drift := e.Drifted(key));
      return true;
    }

    /** The bytes between cursor and anchor are the selected code points. */
    method GetCopyText() returns (r: Bytes)
      requires Valid()
      ensures r == EncodeAll(editor.Copied())
    {
      hide EncodeAll, Offset, Encode;
      ghost var e := editor;
      var start :=
        if currentTextPosition < currentTextCopyPosition then currentTextPosition else currentTextCopyPosition;
      var end := if currentTextPosition < currentTextCopyPosition then currentTextCopyPosition else currentTextPosition;
      if e.cursor < e.anchor {
        OffsetsDistinct(e.text, e.cursor, e.anchor);
        Between(e.text, e.cursor, e.anchor);
      } else if e.anchor < e.cursor {
        OffsetsDistinct(e.text, e.anchor, e.cursor);
        Between(e.text, e.anchor, e.cursor);
      }
      if currentTextCopyPosition != currentTextPosition {
        r := currentText[start..end];
      } else {
        r := currentText;
      }
    }
  }

  /** What the update callback is given when `cs` is typed. */
  ghost function Notified(e: Editor, cs: seq<CodePoint>): seq<Bytes>
    requires e.cursor <= |e.text|
  {
    if !e.enabled then [EncodeAll(cs)]
    else if (cs == [BACKSPACE] && e.cursor == 0) || (cs == [DELETE] && e.cursor == |e.text|) then []
    else [EncodeAll(e.Typed(cs).text)]
  }

  // ---- whole sessions ----

  datatype Op =
    | Enable(shown: seq<CodePoint>, multiline: bool)
    | Update(shown: seq<CodePoint>)
    | Disable
    | Type(typed: seq<CodePoint>)
    | Strike(key: Key, action: Action)

  function Step(e: Editor, op: Op): (e': Editor)
    requires e.Ok()
    ensures e'.Ok()
  {
    match op
    case Enable(cs, multiline) => e.(enabled := true, multiline := multiline).Showing(cs)
    case Update(cs) => e.Showing(cs)
    case Disable => e.(enabled := false).Showing([])
    case Type(cs) => e.Typed(cs)
    case Strike(key, action) => e.Pressed(key, action)
  }

  /** The editor after a session, or None if the session reads before the start of the text. */
  function After(e: Editor, ops: seq<Op>): Option<Editor>
    requires e.Ok()
    decreases |ops|
  {
    if ops == [] then Some(e)
    else if ops[0].Type? && !e.Accepts(ops[0].typed) then None
    else After(Step(e, ops[0]), ops[1..])
  }

  /** The operation brings in no four-byte character. */
  ghost predicate BmpOp(op: Op) {
    match op
    case Enable(cs, _) => AllBmp(cs)
    case Update(cs) => AllBmp(cs)
    case Type(cs) => AllBmp(cs)
    case _ => true
  }

  ghost predicate AllBmpOps(ops: seq<Op>) {
    forall i :: 0 <= i < |ops| ==> BmpOp(ops[i])
  }

  /** The handler's count is right and stays right at the end of the text. */
  ghost predicate Counts(e: Editor) { e.drift == 0 && AllBmp(e.text) }

  lemma StepCounts(e: Editor, op: Op)
    requires e.Ok() && Counts(e) && BmpOp(op)
    ensures Counts(Step(e, op))
  {
    hide Astral, AllBmp, Editor.Typed;
    AstralIffBmp([]);
    match op
    case Enable(cs, _) => AstralIffBmp(cs);
    case Update(cs) => AstralIffBmp(cs);
    case Type(cs) => TypedCounts(e, cs);
    case Disable => NothingIsBmp();
    case Strike(_, _) => AstralIffBmp(e.text);
  }

  lemma NothingIsBmp()
    ensures AllBmp([])
  {
  }

  lemma TypedCounts(e: Editor, cs: seq<CodePoint>)
    requires e.Ok() && Counts(e) && AllBmp(cs)
    ensures Counts(e.Typed(cs))
  {
    hide Astral;
    AstralIffBmp(cs);
  }

  lemma {:induction false} SessionCounts(e: Editor, ops: seq<Op>)
    requires e.Ok() && Counts(e) && AllBmpOps(ops)
    ensures After(e, ops).Some? && Counts(After(e, ops).value)
    decreases |ops|
  {
    if ops == [] {
    } else {
      StepCounts(e, ops[0]);
      SessionCounts(Step(e, ops[0]), ops[1..]);
    }
  }

  /** After every session without four-byte characters the handler's count is the number of code points before
      the cursor, exactly if it is so now and the text has no four-byte character. */
  lemma CountIffBmp(e: Editor)
    requires e.Ok()
    ensures (forall ops :: AllBmpOps(ops) && After(e, ops).Some? ==> After(e, ops).value.drift == 0)
            <==> e.drift == 0 && AllBmp(e.text)
  {
    if Counts(e) {
      forall ops | AllBmpOps(ops) ensures After(e, ops).Some? && Counts(After(e, ops).value) { SessionCounts(e, ops); }
    } else if e.drift == 0 {
      AstralIffBmp(e.text);
      var ops := [Strike(End, Press)];
      assert ops[1..] == [] && AllBmpOps(ops);
      assert After(e, ops) == Some(Step(e, ops[0]));
    } else {
      assert AllBmpOps([]) && After(e, []) == Some(e);
    }
  }

  /** Every session on bytes is a session of the editor over code points, up to the backspace that reads before
      the text. Without four-byte characters that never comes, and the UTF position counts the code points. */
  method Session(h: TextInputHandler, ops: seq<Op>) returns (inBounds: bool)
    requires h.Valid()
    modifies h
    ensures h.Valid() && (inBounds <==> After(old(h.editor), ops).Some?)
    ensures inBounds ==> Some(h.editor) == After(old(h.editor), ops)
    ensures Counts(old(h.editor)) && AllBmpOps(ops) ==> inBounds && h.currentTextPositionUTF == h.editor.cursor
  {
    if Counts(h.editor) && AllBmpOps(ops) { SessionCounts(h.editor, ops); }
    hide EncodeAll, Offset, Encode, Astral, AllBmp, AllBmpOps;
    for i := 0 to |ops|
      invariant h.Valid() && After(h.editor, ops[i..]) == After(old(h.editor), ops)
    {
      assert ops[i..][1..] == ops[i + 1..];
      match ops[i] {
        case Enable(cs, multiline) => h.Enable(EncodeAll(cs), multiline, cs);
        case Update(cs) => h.Update(EncodeAll(cs), cs);
        case Disable => h.Disable();
        case Type(cs) =>
          inBounds := h.OnTextInput(EncodeAll(cs), cs);
          if !inBounds { return; }
        case Strike(key, action) => h.OnKeyPressed(key, action);
      }
    }
    inBounds := true;
  }

  // ---- what keys and typing do over a session ----

  lemma {:induction false} SessionSplits(e: Editor, before: seq<Op>, after: seq<Op>)
    requires e.Ok() && After(e, before).Some?
    ensures After(e, before).value.Ok() && After(e, before + after) == After(After(e, before).value, after)
    decreases |before|
  {
    hide Step;
    if before == [] {
      assert before + after == after;
    } else {
      assert (before + after)[1..] == before[1..] + after;
      SessionSplits(Step(e, before[0]), before[1..], after);
    }
  }

  predicate IsShift(key: Key) { key.LeftShift? || key.RightShift? }

  /** A strike of a key that is not shift. */
  predicate IsMove(op: Op) { op.Strike? && !IsShift(op.key) }

  predicate AllMoves(ops: seq<Op>) { forall i :: 0 <= i < |ops| ==> IsMove(ops[i]) }

  /** Where a walk over n code points ends: each press takes one step and stops at either end. */
  function Walk(n: nat, c: int, ops: seq<Op>): (r: int)
    requires 0 <= c <= n && AllMoves(ops)
    ensures 0 <= r <= n
    decreases |ops|
  {
    if ops == [] then c
    else
      var key := ops[0].key;
      var c' := if ops[0].action.Release? then c
                else if key.Home? then 0
                else if key.End? then n
                else c + (if key.Right? && c < n then 1 else 0) - if key.Left? && c > 0 then 1 else 0;
      Walk(n, c', ops[1..])
  }

  /** The code points between two positions, or all of them if they are the same. */
  function Selection(text: seq<CodePoint>, a: int, b: int): seq<CodePoint>
    requires 0 <= a <= |text| && 0 <= b <= |text|
  {
    if a == b then text else text[(if a < b then a else b)..(if a < b then b else a)]
  }

  /** One key takes one step of the walk, and leaves the text alone. */
  lemma MoveWalks(e: Editor, op: Op)
    requires e.Ok() && IsMove(op)
    ensures AllMoves([op])
    ensures var e' := Step(e, op);
            e'.text == e.text && e'.shift == e.shift && e'.enabled == e.enabled
            && e'.cursor == Walk(|e.text|, e.cursor, [op])
            && e'.anchor == if e.shift || e' == e then e.anchor else e'.cursor
  {
    hide Astral;
    assert [op][1..] == [];
  }

  lemma WalkNowhere(n: nat, c: int)
    requires 0 <= c <= n
    ensures Walk(n, c, []) == c
  {
  }

  lemma WalkOn(n: nat, c: int, ops: seq<Op>)
    requires 0 <= c <= n && AllMoves(ops) && ops != []
    ensures AllMoves(ops[..1]) && AllMoves(ops[1..]) && ops[..1] == [ops[0]] && IsMove(ops[0])
    ensures Walk(n, c, ops) == Walk(n, Walk(n, c, ops[..1]), ops[1..])
  {
    assert ops[..1][1..] == [];
  }

  /** With shift held every sequence of other keys walks the cursor and leaves text and anchor alone, so that what is
      copied lies between the anchor and where the walk ends. */
  lemma {:induction false} ShiftSelects(e: Editor, ops: seq<Op>)
    requires e.Ok() && e.shift && AllMoves(ops)
    ensures var r := After(e, ops);
            r.Some? && r.value.text == e.text && r.value.anchor == e.anchor && r.value.shift
            && r.value.cursor == Walk(|e.text|, e.cursor, ops)
            && r.value.Copied() == Selection(e.text, e.anchor, Walk(|e.text|, e.cursor, ops))
    decreases |ops|
  {
    hide Step, Walk, IsMove, AllMoves;
    if ops == [] {
      assert Walk(|e.text|, e.cursor, ops) == e.cursor by { WalkNowhere(|e.text|, e.cursor); }
    } else {
      WalkOn(|e.text|, e.cursor, ops);
      MoveWalks(e, ops[0]);
      ShiftSelects(Step(e, ops[0]), ops[1..]);
    }
  }

  /** Without shift the same keys walk the same way, and once one has taken effect nothing is selected. */
  lemma {:induction false} MovesCollapse(e: Editor, ops: seq<Op>)
    requires e.Ok() && !e.shift && AllMoves(ops)
    ensures var r := After(e, ops);
            r.Some? && r.value.text == e.text && !r.value.shift
            && r.value.cursor == Walk(|e.text|, e.cursor, ops)
            && (r.value == e || r.value.anchor == r.value.cursor)
    decreases |ops|
  {
    hide Step, Walk, IsMove, AllMoves;
    if ops == [] {
      assert Walk(|e.text|, e.cursor, ops) == e.cursor by { WalkNowhere(|e.text|, e.cursor); }
    } else {
      WalkOn(|e.text|, e.cursor, ops);
      MoveWalks(e, ops[0]);
      MovesCollapse(Step(e, ops[0]), ops[1..]);
    }
  }

  /** Right then Left, and Left then Right, come back wherever the first one moves. */
  lemma LeftUndoesRight(e: Editor, there: Key, back: Key)
    requires e.Ok() && ((there == Right && back == Left && e.cursor < |e.text|)
                        || (there == Left && back == Right && 0 < e.cursor))
    ensures var r := After(e, [Strike(there, Press), Strike(back, Press)]);
            r.Some? && r.value.text == e.text && r.value.cursor == e.cursor
  {
    var ops := [Strike(there, Press), Strike(back, Press)];
    var n, there', back' := |e.text|, ops[..1], ops[1..];
    assert back' == [Strike(back, Press)] && back'[1..] == [] && there'[1..] == [];
    WalkOn(n, e.cursor, ops);
    assert Walk(n, Walk(n, e.cursor, there'), back') == e.cursor;
    hide Walk, After, AllMoves;
    if e.shift { ShiftSelects(e, ops); } else { MovesCollapse(e, ops); }
  }

  predicate IsControl(cs: seq<CodePoint>) { cs == [BACKSPACE] || cs == [DELETE] }

  function Times(op: Op, n: nat): (ops: seq<Op>)
    ensures |ops| == n && forall i :: 0 <= i < n ==> ops[i] == op
  {
    seq(n, i => op)
  }

  /** Backspaces remove what precedes the cursor, one code point each. */
  lemma {:induction false} Backspaces(e: Editor, n: nat)
    requires e.Ok() && e.enabled && n <= e.cursor
    ensures var k := e.cursor - n;
            After(e, Times(Type([BACKSPACE]), n))
            == Some(if n == 0 then e else e.(text := e.text[..k] + e.text[e.cursor..], cursor := k, anchor := k))
    decreases n
  {
    if n == 0 {
    } else {
      var ops := Times(Type([BACKSPACE]), n);
      assert ops[1..] == Times(Type([BACKSPACE]), n - 1);
      var e' := Step(e, ops[0]);
      assert e'.text[e'.cursor..] == e.text[e.cursor..];
      assert e'.text[..e.cursor - n] == e.text[..e.cursor - n];
      Backspaces(e', n - 1);
      if n == 1 { assert e'.text[..e'.cursor] + e'.text[e'.cursor..] == e'.text; }
    }
  }

  /** Delete removes what follows the cursor, one code point each. */
  lemma {:induction false} Deletes(e: Editor, n: nat)
    requires e.Ok() && e.enabled && e.cursor + n <= |e.text|
    ensures After(e, Times(Type([DELETE]), n))
            == Some(if n == 0 then e else e.(text := e.text[..e.cursor] + e.text[e.cursor + n..], anchor := e.cursor))
    decreases n
  {
    if n == 0 {
    } else {
      var ops := Times(Type([DELETE]), n);
      assert ops[1..] == Times(Type([DELETE]), n - 1);
      var e' := Step(e, ops[0]);
      assert e'.text[..e'.cursor] == e.text[..e.cursor];
      assert e'.text[e.cursor + (n - 1)..] == e.text[e.cursor + n..];
      Deletes(e', n - 1);
      if n == 1 { assert e'.text[..e'.cursor] + e'.text[e'.cursor..] == e'.text; }
    }
  }

  /** A session that begins with typing. */
  lemma TypedFirst(e: Editor, cs: seq<CodePoint>)
    requires e.Ok() && e.enabled && !IsControl(cs)
    ensures var t := Step(e, Type(cs));
            After(e, [Type(cs)]) == Some(t) && t.Ok() && t.cursor == e.cursor + |cs|
            && t.text[..e.cursor] + t.text[t.cursor..] == e.text && (cs == [] ==> t.text == e.text)
            && t == e.(text := t.text, cursor := t.cursor, anchor := t.cursor, drift := e.drift + 3 * Astral(cs))
  {
    hide Astral, Editor.Typed;
    TypeOnce(e, cs);
    InsertTwice(e.text[..e.cursor], cs, [], e.text[e.cursor..]);
    InsertOnce(e.text[..e.cursor], cs, e.text[e.cursor..]);
    assert e.text[..e.cursor] + e.text[e.cursor..] == e.text;
  }

  /** Typing and then as many backspaces restores the text and the cursor and selects nothing. The handler's own
      count is restored exactly if no four-byte character was typed. */
  lemma BackspaceUndoesTyping(e: Editor, cs: seq<CodePoint>)
    requires e.Ok() && e.enabled && !IsControl(cs)
    ensures After(e, [Type(cs)] + Times(Type([BACKSPACE]), |cs|))
            == Some(e.(anchor := e.cursor, drift := e.drift + 3 * Astral(cs)))
    ensures AllBmp(cs) <==> Astral(cs) == 0
  {
    hide *;
    AstralIffBmp(cs);
    TypedFirst(e, cs);
    var t := Step(e, Type(cs));
    SessionSplits(e, [Type(cs)], Times(Type([BACKSPACE]), |cs|));
    Backspaces(t, |cs|);
    Restored(e, t, |cs|);
  }

  lemma Restored(e: Editor, t: Editor, n: nat)
    requires t == e.(text := t.text, cursor := e.cursor + n, anchor := e.cursor + n, drift := t.drift)
    requires e.Ok() && t.Ok() && t.text[..e.cursor] + t.text[t.cursor..] == e.text && (n == 0 ==> t.text == e.text)
    ensures var k := t.cursor - n;
            (if n == 0 then t else t.(text := t.text[..k] + t.text[t.cursor..], cursor := k, anchor := k))
            == e.(anchor := e.cursor, drift := t.drift)
  {
  }

  /** Typing forwards, walking back over it and deleting it forwards also restores the text and the cursor. */
  lemma DeleteUndoesTyping(e: Editor, cs: seq<CodePoint>)
    requires e.Ok() && e.enabled && !IsControl(cs) && !e.shift
    ensures var ops := [Type(cs)] + Times(Strike(Left, Press), |cs|) + Times(Type([DELETE]), |cs|);
            After(e, ops).Some? && After(e, ops).value.text == e.text && After(e, ops).value.cursor == e.cursor
            && After(e, ops).value.anchor == e.cursor
  {
    hide Astral, AllBmp, After, Step, Times, IsControl, Walk;
    TypedFirst(e, cs);
    var typed := Step(e, Type(cs));
    var walk := Times(Strike(Left, Press), |cs|);
    SessionSplits(e, [Type(cs)], walk);
    MovesCollapse(typed, walk);
    WalkLeft(|typed.text|, typed.cursor, |cs|);
    EnabledStays(typed, walk);
    var walked := After(typed, walk).value;
    SessionSplits(e, [Type(cs)] + walk, Times(Type([DELETE]), |cs|));
    Deletes(walked, |cs|);
  }

  lemma {:induction false} WalkLeft(n: nat, c: nat, steps: nat)
    requires steps <= c <= n
    ensures Walk(n, c, Times(Strike(Left, Press), steps)) == c - steps
  {
    if steps == 0 {
    } else {
      assert Times(Strike(Left, Press), steps)[1..] == Times(Strike(Left, Press), steps - 1);
      WalkLeft(n, c - 1, steps - 1);
    }
  }

  /** Keys neither enable nor disable the handler, and while it is disabled neither keys nor typing change its text. */
  lemma {:induction false} EnabledStays(e: Editor, ops: seq<Op>)
    requires e.Ok() && (forall i :: 0 <= i < |ops| ==> ops[i].Strike? || ops[i].Type?)
    ensures After(e, ops).Some? ==> After(e, ops).value.enabled == e.enabled
    ensures !e.enabled ==> After(e, ops).Some? && After(e, ops).value.text == e.text
    decreases |ops|
  {
    if ops == [] {
    } else if ops[0].Type? && !e.Accepts(ops[0].typed) {
    } else {
      EnabledStays(Step(e, ops[0]), ops[1..]);
    }
  }

  /** Once any typing has taken effect nothing is selected. */
  lemma {:induction false} TypingCollapses(e: Editor, ops: seq<Op>)
    requires e.Ok() && (forall i :: 0 <= i < |ops| ==> ops[i].Type?)
    ensures var r := After(e, ops); r.Some? ==> r.value == e || r.value.anchor == r.value.cursor
    decreases |ops|
  {
    hide Astral;
    if ops == [] {
    } else if !e.Accepts(ops[0].typed) {
    } else {
      TypingCollapses(Step(e, ops[0]), ops[1..]);
    }
  }

  /** Typing in pieces is typing the whole. */
  lemma TypingConcatenates(e: Editor, a: seq<CodePoint>, b: seq<CodePoint>)
    requires e.Ok() && !IsControl(a) && !IsControl(b) && !IsControl(a + b)
    ensures After(e, [Type(a), Type(b)]) == After(e, [Type(a + b)])
  {
    hide Astral, After, Editor.Typed, IsControl;
    TypeOnce(e, a);
    TypeOnce(e.Typed(a), b);
    TypeOnce(e, a + b);
    assert [Type(a)] + [Type(b)] == [Type(a), Type(b)];
    SessionSplits(e, [Type(a)], [Type(b)]);
    if e.enabled {
      InsertTwice(e.text[..e.cursor], a, b, e.text[e.cursor..]);
      AstralConcat(a, b);
    }
  }

  lemma TypeOnce(e: Editor, cs: seq<CodePoint>)
    requires e.Ok() && !IsControl(cs)
    ensures var t := e.Typed(cs);
            After(e, [Type(cs)]) == Some(t) && t.Ok()
            && t == if !e.enabled then e
                    else e.(text := e.text[..e.cursor] + cs + e.text[e.cursor..], cursor := e.cursor + |cs|,
                            anchor := e.cursor + |cs|, drift := e.drift + 3 * Astral(cs))
  {
    hide Astral;
    assert [Type(cs)][1..] == [];
    assert After(e, [Type(cs)]) == After(Step(e, Type(cs)), []);
  }

  lemma InsertOnce(x: seq<CodePoint>, a: seq<CodePoint>, y: seq<CodePoint>)
    ensures (x + a + y)[..|x|] == x && (a == [] ==> x + a + y == x + y)
  {
  }

  lemma InsertTwice(x: seq<CodePoint>, a: seq<CodePoint>, b: seq<CodePoint>, y: seq<CodePoint>)
    ensures (x + a + y)[..|x| + |a|] == x + a && (x + a + y)[|x| + |a|..] == y
    ensures x + a + b + y == x + (a + b) + y
  {
  }

  lemma {:induction false} AstralConcat(a: seq<CodePoint>, b: seq<CodePoint>)
    ensures Astral(a + b) == Astral(a) + Astral(b)
  {
    if a == [] {
      assert a + b == b;
    } else {
      assert (a + b)[1..] == a[1..] + b;
      AstralConcat(a[1..], b);
    }
  }

  /** What is shown is extended by what is typed next, whether or not anything was selected before. */
  lemma TypingExtendsShown(e: Editor, shown: seq<CodePoint>, multiline: bool, cs: seq<CodePoint>)
    requires e.Ok() && !IsControl(cs)
    ensures var r := After(e, [Enable(shown, multiline), Type(cs)]);
            r.Some? && r.value.text == shown + cs && r.value.cursor == r.value.anchor == |shown + cs|
            && r.value.Copied() == shown + cs
            && r.value.enabled && r.value.multiline == multiline
  {
    var ops := [Enable(shown, multiline), Type(cs)];
    assert ops[1..] == [Type(cs)] && [Type(cs)][1..] == [];
    var e' := Step(e, ops[0]);
    assert e'.text[..e'.cursor] + cs + e'.text[e'.cursor..] == shown + cs;
    assert After(e', [Type(cs)]) == Some(Step(e', Type(cs)));
  }

  /** Selecting on the bytes: shift down, any other keys, shift up. What is then copied is the encoding of the code
      points between the old anchor and where the keys walk to. */
  method SelectAndCopy(h: TextInputHandler, shift: Key, ops: seq<Op>) returns (r: Bytes)
    requires h.Valid() && IsShift(shift) && AllMoves(ops)
    modifies h
    ensures h.Valid() && h.currentText == old(h.currentText)
    ensures var e := old(h.editor);
            r == EncodeAll(Selection(e.text, e.anchor, Walk(|e.text|, e.cursor, ops)))
  {
    hide EncodeAll, Offset, Encode, Astral, AllBmp, AllBmpOps, Counts, Walk, Selection;
    h.OnKeyPressed(shift, Press);
    ShiftSelects(h.editor, ops);
    var inBounds := Session(h, ops);
    h.OnKeyPressed(shift, Release);
    r := h.GetCopyText();
  }

  /** Typing on the bytes and as many backspaces: text and byte position are back, and the UTF position is too high by
      three for every four-byte character typed. */
  method TypeAndErase(h: TextInputHandler, cs: seq<CodePoint>)
    requires h.Valid() && h.enabled && !IsControl(cs)
    modifies h
    ensures h.Valid() && h.currentText == old(h.currentText) && h.currentTextPosition == old(h.currentTextPosition)
    ensures h.currentTextPositionUTF == old(h.currentTextPositionUTF) + 3 * Astral(cs)
    ensures h.currentTextCopyPosition == h.currentTextPosition
  {
    BackspaceUndoesTyping(h.editor, cs);
    hide EncodeAll, Offset, Encode, Astral, AllBmp, AllBmpOps, Counts, After, Times;
    var inBounds := Session(h, [Type(cs)] + Times(Type([BACKSPACE]), |cs|));
  }

  // ---- when the handler's own count goes wrong ----

  ghost predicate Clean(e: Editor) { e.enabled ==> Counts(e) }

  lemma StepClean(e: Editor, op: Op)
    requires e.Ok() && Clean(e) && BmpOp(op)
    ensures Clean(Step(e, op))
  {
    if e.enabled {
      StepCounts(e, op);
    } else if op.Enable? {
      AstralIffBmp(op.shown);
    }
  }

  lemma {:induction false} CleanIsDefined(e: Editor, ops: seq<Op>)
    requires e.Ok() && Clean(e) && AllBmpOps(ops)
    ensures After(e, ops).Some?
    decreases |ops|
  {
    if ops == [] {
    } else {
      StepClean(e, ops[0]);
      CleanIsDefined(Step(e, ops[0]), ops[1..]);
    }
  }

  /** With a drifted count: walk to the start and press backspace. */
  lemma {:induction false} DriftedFails(e: Editor) returns (ops: seq<Op>)
    requires e.Ok() && e.enabled && e.drift > 0
    ensures AllBmpOps(ops) && After(e, ops) == None
    decreases e.cursor
  {
    if e.cursor == 0 {
      ops := [Type([BACKSPACE])];
    } else {
      var rest := DriftedFails(Step(e, Strike(Left, Press)));
      ops := [Strike(Left, Press)] + rest;
      assert ops[1..] == rest;
    }
  }

  lemma UncleanFails(e: Editor) returns (ops: seq<Op>)
    requires e.Ok() && !Clean(e)
    ensures AllBmpOps(ops) && After(e, ops) == None
  {
    if e.drift > 0 {
      ops := DriftedFails(e);
    } else {
      AstralIffBmp(e.text);
      var rest := DriftedFails(Step(e, Strike(End, Press)));
      ops := [Strike(End, Press)] + rest;
      assert ops[1..] == rest;
    }
  }

  /** No session without further four-byte characters can read before the start of the text, exactly if the
      handler is disabled, or its count is right and its text has no four-byte character. */
  lemma DefinedIffClean(e: Editor)
    requires e.Ok()
    ensures (forall ops :: AllBmpOps(ops) ==> After(e, ops).Some?) <==> Clean(e)
  {
    if Clean(e) {
      forall ops | AllBmpOps(ops) ensures After(e, ops).Some? { CleanIsDefined(e, ops); }
    } else {
      var ops := UncleanFails(e);
    }
  }
}
