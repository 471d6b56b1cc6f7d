/** One node card of the editor: how its text is cut into aligned lines, how
    the formatting toolbar rewrites the node's formatting record, and the
    card's own local state (editing, the two menus, the drag references). */
module NodeView {
  import opened Types
  import opened Seqs

  const NewLine := '\n'

  /** The alignment a line is drawn with: its own entry in `lineAlignments`,
      else the node-wide `textAlign`, else left. */
  function LineAlign(f: Option<TextFormatting>, i: nat): (a: Align)
    ensures f.Some? && f.value.lineAlignments.Some? && i in f.value.lineAlignments.value ==>
      a == f.value.lineAlignments.value[i]
    ensures (f.None? || f.value.lineAlignments.None? || i !in f.value.lineAlignments.value) ==>
      a == if f.Some? && f.value.textAlign.Some? then f.value.textAlign.value else Align.Left
  {
    if f.Some? && f.value.lineAlignments.Some? && i in f.value.lineAlignments.value then
      f.value.lineAlignments.value[i]
    else if f.Some? && f.value.textAlign.Some? then f.value.textAlign.value
    else Align.Left
  }

  /** One rendered line: its alignment and what is shown (an empty line shows a
      single space so that it keeps its height). */
  datatype TextLine = TextLine(align: Align, shown: string)

  function Shown(line: string): (r: string)
    ensures r != []
    ensures line != [] ==> r == line
  {
    if line == [] then " " else line
  }

  /** The lines of a node's text, one per `'\n'`-separated segment. */
  function FormattedLines(text: string, f: Option<TextFormatting>): (r: seq<TextLine>)
    ensures |r| == Count(text, NewLine) + 1
    ensures forall i | 0 <= i < |r| :: r[i].shown != [] && NewLine !in r[i].shown
    ensures forall i | 0 <= i < |r| :: r[i].align == LineAlign(f, i)
  {
    var lines := Split(text, NewLine);
    seq(|lines|, i requires 0 <= i < |lines| => TextLine(LineAlign(f, i), Shown(lines[i])))
  }

  /** Reading back the shown lines, with the placeholder of empty lines
      dropped, gives the node's text. */
  lemma FormattedLinesText(text: string, f: Option<TextFormatting>)
    ensures var r := FormattedLines(text, f);
      Join(seq(|r|, i requires 0 <= i < |r| => if r[i].shown == " " && Split(text, NewLine)[i] == [] then [] else r[i].shown), [NewLine]) == text
  {
    var r := FormattedLines(text, f);
    var lines := Split(text, NewLine);
    var back := seq(|r|, i requires 0 <= i < |r| => if r[i].shown == " " && lines[i] == [] then [] else r[i].shown);
    assert back == lines;
    JoinSplit(text, NewLine);
  }

  /** The index of the line holding the cursor: the number of line breaks
      before the cursor offset (`substring` clamps an offset past the end). */
  function CursorLine(text: string, selectionStart: nat): (n: nat)
    ensures n <= Count(text, NewLine)
    ensures n < |FormattedLines(text, None)|
    ensures selectionStart >= |text| ==> n == Count(text, NewLine)
  {
    var before := Prefix(text, selectionStart);
    if selectionStart <= |text| then
      CountPrefix(text, selectionStart, NewLine);
      assert selectionStart == |text| ==> before == text;
      Count(before, NewLine)
    else Count(before, NewLine)
  }

  /** The cursor line moves forward one line exactly when the cursor passes a
      line break, and stays otherwise. */
  lemma {:induction false} CursorLineStep(text: string, k: nat)
    requires k < |text|
    ensures CursorLine(text, k + 1) == CursorLine(text, k) + (if text[k] == NewLine then 1 else 0)
  {
    assert text[..k + 1] == text[..k] + [text[k]];
    CountAppend(text[..k], [text[k]], NewLine);
  }

  /** A cursor placed right after the m-th line break of a text built from
      lines is on line m. */
  lemma {:induction false} CursorLineAfterLines(parts: seq<string>, m: nat)
    requires 0 < m < |parts|
    requires forall i | 0 <= i < |parts| :: NewLine !in parts[i]
    ensures var head := Join(parts[..m], [NewLine]) + [NewLine];
      head <= Join(parts, [NewLine]) && CursorLine(Join(parts, [NewLine]), |head|) == m
  {
    var text := Join(parts, [NewLine]);
    var head := Join(parts[..m], [NewLine]) + [NewLine];
    JoinPrefix(parts, m);
    assert text == head + Join(parts[m..], [NewLine]);
    assert text[..|head|] == head;
    CountAppend(Join(parts[..m], [NewLine]), [NewLine], NewLine);
    CountJoin(parts[..m]);
  }

  lemma {:induction false} JoinPrefix(parts: seq<string>, m: nat)
    requires 0 < m < |parts|
    ensures Join(parts, [NewLine]) == Join(parts[..m], [NewLine]) + [NewLine] + Join(parts[m..], [NewLine])
  {
    if m > 1 {
      JoinPrefix(parts[1..], m - 1);
      assert parts[1..][..m - 1] == parts[..m][1..];
      assert parts[1..][m - 1..] == parts[m..];
    }
  }

  /** Lines without breaks, joined by breaks, hold one break fewer than lines. */
  lemma {:induction false} CountJoin(parts: seq<string>)
    requires |parts| > 0
    requires forall i | 0 <= i < |parts| :: NewLine !in parts[i]
    ensures Count(Join(parts, [NewLine]), NewLine) == |parts| - 1
  {
    if |parts| > 1 {
      CountJoin(parts[1..]);
      CountAppend(parts[0], [NewLine], NewLine);
      CountAppend(parts[0] + [NewLine], Join(parts[1..], [NewLine]), NewLine);
    }
  }

  /** A write of one formatting property (`updateFormatting(property, value)`). */
  datatype FormatUpdate =
    | SetBold(bold: bool)
    | SetItalic(italic: bool)
    | SetUnderline(underline: bool)
    | SetTextAlign(align: Align)
    | SetFontSize(size: real)
    | SetFontFamily(family: string)
    | SetLineAlignments(lines: Option<map<nat, Align>>)

  /** `node.formatting || {}`. */
  function Current(f: Option<TextFormatting>): TextFormatting {
    if f.Some? then f.value else EmptyFormatting
  }

  /** The new formatting record: the named property takes the value, every
      other property is that of the current record. */
  function UpdateFormatting(f: Option<TextFormatting>, u: FormatUpdate): (r: TextFormatting)
    ensures r.bold == if u.SetBold? then Some(u.bold) else Current(f).bold
    ensures r.italic == if u.SetItalic? then Some(u.italic) else Current(f).italic
    ensures r.underline == if u.SetUnderline? then Some(u.underline) else Current(f).underline
    ensures r.textAlign == if u.SetTextAlign? then Some(u.align) else Current(f).textAlign
    ensures r.fontSize == if u.SetFontSize? then Some(u.size) else Current(f).fontSize
    ensures r.fontFamily == if u.SetFontFamily? then Some(u.family) else Current(f).fontFamily
    ensures r.lineAlignments == if u.SetLineAlignments? then u.lines else Current(f).lineAlignments
  {
    var c := Current(f);
    match u
    case SetBold(b) => c.(bold := Some(b))
    case SetItalic(b) => c.(italic := Some(b))
    case SetUnderline(b) => c.(underline := Some(b))
    case SetTextAlign(a) => c.(textAlign := Some(a))
    case SetFontSize(s) => c.(fontSize := Some(s))
    case SetFontFamily(s) => c.(fontFamily := Some(s))
    case SetLineAlignments(m) => c.(lineAlignments := m)
  }

  /** Writing a property twice keeps only the second write. */
  lemma UpdateFormattingOverwrites(f: Option<TextFormatting>, u: FormatUpdate, v: FormatUpdate)
    requires u.SetBold? == v.SetBold? && u.SetItalic? == v.SetItalic? && u.SetUnderline? == v.SetUnderline?
    requires u.SetTextAlign? == v.SetTextAlign? && u.SetFontSize? == v.SetFontSize? && u.SetFontFamily? == v.SetFontFamily?
    ensures UpdateFormatting(Some(UpdateFormatting(f, u)), v) == UpdateFormatting(f, v)
  {
  }

  datatype Toggle = Bold | Italic | Underline

  /** `!current[property]` as a boolean: an unset property counts as false. */
  function IsOn(f: Option<TextFormatting>, t: Toggle): bool {
    var c := Current(f);
    match t
    case Bold => c.bold == Some(true)
    case Italic => c.italic == Some(true)
    case Underline => c.underline == Some(true)
  }

  /** Flip bold, italic or underline; an unset property becomes true. */
  function ToggleFormatting(f: Option<TextFormatting>, t: Toggle): (r: TextFormatting)
    ensures IsOn(Some(r), t) == !IsOn(f, t)
    ensures t.Bold? ==> r.bold == Some(!IsOn(f, t)) && r == Current(f).(bold := r.bold)
    ensures t.Italic? ==> r.italic == Some(!IsOn(f, t)) && r == Current(f).(italic := r.italic)
    ensures t.Underline? ==> r.underline == Some(!IsOn(f, t)) && r == Current(f).(underline := r.underline)
  {
    UpdateFormatting(f, Write(t, !IsOn(f, t)))
  }

  /** The update that writes a toggled property. */
  function Write(t: Toggle, v: bool): FormatUpdate {
    match t
    case Bold => SetBold(v)
    case Italic => SetItalic(v)
    case Underline => SetUnderline(v)
  }

  /** The stored value of a toggled property. */
  function Flag(c: TextFormatting, t: Toggle): Option<bool> {
    match t
    case Bold => c.bold
    case Italic => c.italic
    case Underline => c.underline
  }

  /** Toggling twice gives the property back as an explicit boolean: a set
      property restores the whole record, and an unset one is left `false`
      with every other property kept. */
  lemma ToggleTwice(f: Option<TextFormatting>, t: Toggle)
    ensures IsOn(Some(ToggleFormatting(Some(ToggleFormatting(f, t)), t)), t) == IsOn(f, t)
    ensures Flag(Current(f), t).Some? ==> ToggleFormatting(Some(ToggleFormatting(f, t)), t) == Current(f)
    ensures Flag(Current(f), t).None? ==> ToggleFormatting(Some(ToggleFormatting(f, t)), t) == UpdateFormatting(f, Write(t, false))
  {
    var c := Current(f);
    var once := ToggleFormatting(f, t);
    var twice := ToggleFormatting(Some(once), t);
    match t
    case Bold =>
      assert twice == c.(bold := Some(IsOn(f, t)));
      if c.bold.Some? {
        assert c.bold == Some(IsOn(f, t)) by { if c.bold.value { } else { } }
      }
    case Italic =>
      assert twice == c.(italic := Some(IsOn(f, t)));
      if c.italic.Some? {
        assert c.italic == Some(IsOn(f, t)) by { if c.italic.value { } else { } }
      }
    case Underline =>
      assert twice == c.(underline := Some(IsOn(f, t)));
      if c.underline.Some? {
        assert c.underline == Some(IsOn(f, t)) by { if c.underline.value { } else { } }
      }
  }

  /** What the textarea offers while the card edits: its text and cursor. */
  datatype TextArea = TextArea(value: string, selectionStart: nat)

  /** The alignment buttons and shortcuts: nothing unless the card is editing
      and its textarea exists; otherwise the one entry of the cursor's line is
      set and everything else of the formatting record is kept. */
  function UpdateLineAlignment(editing: bool, area: Option<TextArea>, f: Option<TextFormatting>, a: Align): (r: Option<TextFormatting>)
    ensures r.Some? <==> editing && area.Some?
    ensures r.Some? ==>
      var line := CursorLine(area.value.value, area.value.selectionStart);
      var old_ := if Current(f).lineAlignments.Some? then Current(f).lineAlignments.value else map[];
      && r.value.lineAlignments.Some?
      && r.value.lineAlignments.value.Keys == old_.Keys + {line}
      && r.value.lineAlignments.value[line] == a
      && (forall k | k in old_ && k != line :: r.value.lineAlignments.value[k] == old_[k])
      && r.value == Current(f).(lineAlignments := r.value.lineAlignments)
      && LineAlign(r, line) == a
  {
    if !editing || area.None? then None
    else
      var line := CursorLine(area.value.value, area.value.selectionStart);
      var c := Current(f);
      var lines := if c.lineAlignments.Some? then c.lineAlignments.value else map[];
      Some(UpdateFormatting(f, SetLineAlignments(Some(lines[line := a]))))
  }

  /** Setting the alignment of a line never changes how any other line is drawn. */
  lemma LineAlignmentLocal(area: TextArea, f: Option<TextFormatting>, a: Align, i: nat)
    requires i != CursorLine(area.value, area.selectionStart)
    ensures LineAlign(UpdateLineAlignment(true, Some(area), f, a), i) == LineAlign(f, i)
  {
  }

  /** An anchor of this card is highlighted as active or as the pending
      source exactly when the marked point is this node and this side. */
  function MarksAnchor(p: Option<ConnectionPoint>, nodeId: Id, side: Anchor): (r: bool)
    ensures r <==> p == Some(ConnectionPoint(nodeId, side))
  {
    p.Some? && p.value.nodeId == nodeId && p.value.position == side
  }

  /** The node position a drag reaches: the initial position plus the mouse
      movement divided by the zoom scale. */
  function DragTarget(initialMouse: Position, initialNode: Position, mouse: Position, scale: real): Position
    requires scale > 0.0
  {
    Position(initialNode.x + (mouse.x - initialMouse.x) / scale,
             initialNode.y + (mouse.y - initialMouse.y) / scale)
  }

  /** Moving the mouse by `d` screen units scaled moves the node by `d`: drags
      follow the pointer at every zoom level. */
  lemma DragFollowsPointer(initialMouse: Position, initialNode: Position, d: Position, scale: real)
    requires scale > 0.0
    ensures DragTarget(initialMouse, initialNode, Position(initialMouse.x + d.x * scale, initialMouse.y + d.y * scale), scale)
      == Position(initialNode.x + d.x, initialNode.y + d.y)
  {
    assert (initialMouse.x + d.x * scale - initialMouse.x) / scale == d.x;
    assert (initialMouse.y + d.y * scale - initialMouse.y) / scale == d.y;
  }

  /** The card's own state hooks and refs. */
  class NodeWidget {
    var isDragging: bool
    var showTypeMenu: bool
    var showFormatting: bool
    var isEditing: bool
    var currentLine: nat
    var initialMousePos: Option<Position>
    var initialNodePos: Option<Position>

    /** The type menu and the formatting toolbar are never open together, and
        the drag refs are set exactly while dragging. */
    ghost predicate Valid()
      reads this
    {
      && !(showTypeMenu && showFormatting)
      && (isDragging <==> initialMousePos.Some? && initialNodePos.Some?)
    }

    constructor ()
      ensures Valid()
      ensures !isDragging && !showTypeMenu && !showFormatting && !isEditing && currentLine == 0
    {
      isDragging, showTypeMenu, showFormatting, isEditing, currentLine := false, false, false, false, 0;
      initialMousePos, initialNodePos := None, None;
    }

    /** Typing or moving the cursor records the cursor's line (`handleCursorMove`). */
    method HandleCursorMove(area: TextArea)
      modifies this`currentLine
      ensures currentLine == CursorLine(area.value, area.selectionStart)
      ensures currentLine < |FormattedLines(area.value, None)|
    {
      var line := CursorLine(area.value, area.selectionStart);
      if line != currentLine {
        currentLine := line;
      }
    }

    /** `resetLineFormatting`: drop the current line's entry from a copy of the
        line alignments; an emptied map becomes unset. */
    method ResetLineFormatting(f: Option<TextFormatting>) returns (r: TextFormatting)
      ensures var before := if Current(f).lineAlignments.Some? then Current(f).lineAlignments.value else map[];
        && (r.lineAlignments.None? <==> before.Keys <= {currentLine})
        && (r.lineAlignments.Some? ==>
              r.lineAlignments.value.Keys == before.Keys - {currentLine}
              && forall k | k in r.lineAlignments.value :: r.lineAlignments.value[k] == before[k])
        && r == Current(f).(lineAlignments := r.lineAlignments)
    {
      var c := Current(f);
      var lines := if c.lineAlignments.Some? then c.lineAlignments.value else map[];
      lines := lines - {currentLine};
      r := UpdateFormatting(f, SetLineAlignments(if |lines.Keys| > 0 then Some(lines) else None));
      assert |lines.Keys| == 0 ==> lines.Keys == {};
    }

    /** The edit button: start editing and close both menus. */
    method HandleEditClick()
      requires Valid()
      modifies this`isEditing, this`showTypeMenu, this`showFormatting
      ensures Valid()
      ensures isEditing && !showTypeMenu && !showFormatting
    {
      isEditing := true;
      showTypeMenu := false;
      showFormatting := false;
    }

    /** The type button: flip the type menu and close the toolbar. */
    method HandleTypeClick()
      requires Valid()
      modifies this`showTypeMenu, this`showFormatting
      ensures Valid()
      ensures showTypeMenu == !old(showTypeMenu) && !showFormatting
    {
      showTypeMenu := !showTypeMenu;
      showFormatting := false;
    }

    /** The format button: flip the toolbar and close the type menu. */
    method HandleFormatClick()
      requires Valid()
      modifies this`showTypeMenu, this`showFormatting
      ensures Valid()
      ensures showFormatting == !old(showFormatting) && !showTypeMenu
    {
      showFormatting := !showFormatting;
      showTypeMenu := false;
    }

    /** The add-child and delete buttons, after their action, close both menus. */
    method CloseMenus()
      requires Valid()
      modifies this`showTypeMenu, this`showFormatting
      ensures Valid()
      ensures !showTypeMenu && !showFormatting
    {
      showTypeMenu := false;
      showFormatting := false;
    }

    /** Picking a type in the type menu closes it. */
    method CloseTypeMenu()
      requires Valid()
      modifies this`showTypeMenu
      ensures Valid()
      ensures !showTypeMenu
    {
      showTypeMenu := false;
    }

    /** Leaving the textarea ends editing. */
    method HandleBlur()
      modifies this`isEditing
      ensures !isEditing
    {
      isEditing := false;
    }

    /** Mouse down on the card: only the left button, and not on a button or
        the textarea, starts a drag; the refs take the mouse and node
        positions, and the editor is told the drag started. */
    method HandleMouseDown(button: int, onControl: bool, mouse: Position, node: Position) returns (started: bool)
      requires Valid()
      modifies this`isDragging, this`initialMousePos, this`initialNodePos
      ensures Valid()
      ensures started <==> button == 0 && !onControl
      ensures started ==> isDragging && initialMousePos == Some(mouse) && initialNodePos == Some(node)
      ensures !started ==> isDragging == old(isDragging) && initialMousePos == old(initialMousePos) && initialNodePos == old(initialNodePos)
    {
      started := button == 0 && !onControl;
      if started {
        initialMousePos := Some(mouse);
        initialNodePos := Some(node);
        isDragging := true;
      }
    }

    /** Mouse move during a drag: the position the editor is sent, or nothing
        when no drag is under way. */
    method HandleMouseMove(mouse: Position, scale: real) returns (emit: Option<Position>)
      requires scale > 0.0
      ensures emit.Some? <==> isDragging && initialMousePos.Some? && initialNodePos.Some?
      ensures emit.Some? ==> emit.value == DragTarget(initialMousePos.value, initialNodePos.value, mouse, scale)
    {
      if !isDragging || initialMousePos.None? || initialNodePos.None? {
        return None;
      }
      var dx := (mouse.x - initialMousePos.value.x) / scale;
      var dy := (mouse.y - initialMousePos.value.y) / scale;
      emit := Some(Position(initialNodePos.value.x + dx, initialNodePos.value.y + dy));
    }

    /** Mouse up: a drag under way ends, its refs are cleared and the editor is
        told; otherwise nothing happens. */
    method HandleMouseUp() returns (ended: bool)
      requires Valid()
      modifies this`isDragging, this`initialMousePos, this`initialNodePos
      ensures Valid()
      ensures ended == old(isDragging)
      ensures !isDragging
      ensures ended ==> initialMousePos.None? && initialNodePos.None?
      ensures !ended ==> initialMousePos == old(initialMousePos) && initialNodePos == old(initialNodePos)
    {
      ended := isDragging;
      if ended {
        isDragging := false;
        initialMousePos := None;
        initialNodePos := None;
      }
    }
  }

  /** A drag that starts and moves straight back to the press point leaves the
      node where it was. */
  method DragWithoutMovement(w: NodeWidget, mouse: Position, node: Position, scale: real) returns (emit: Option<Position>)
    requires w.Valid() && scale > 0.0
    modifies w`isDragging, w`initialMousePos, w`initialNodePos
    ensures w.Valid()
    ensures emit == Some(node)
  {
    var started := w.HandleMouseDown(0, false, mouse, node);
    emit := w.HandleMouseMove(mouse, scale);
  }
}
