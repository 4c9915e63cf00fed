/**
  The ImageEditor object: its drawing settings, the live element list, the
  selection, the linear undo history and the pointer state machine that ties
  them together. Every method changes exactly the fields its `modifies`
  clause names and states the new value of each.
*/
module Editor {
  import opened Wrappers
  import opened Geometry
  import opened Elements
  import opened Refs
  import opened TextInput

  /** The values of `currentTool`. */
  datatype Tool = SelectTool | TextTool | RectTool | CircleTool | LineTool | ArrowTool | PenTool | CropTool

  /** The tools whose pointer-up creates a figure of that kind. */
  function ShapeKind(t: Tool): (k: Option<Kind>)
    ensures k.Some? <==> t in {RectTool, CircleTool, LineTool, ArrowTool}
    ensures k.Some? ==> k.value != Text
  {
    match t
    case RectTool => Some(Rect)
    case CircleTool => Some(Circle)
    case LineTool => Some(Line)
    case ArrowTool => Some(Arrow)
    case _ => None
  }

  /** The background image, known only by identity. */
  datatype Raster = Raster(handle: nat)

  /** One history entry: a copy of the element list and the background in use. */
  datatype Snapshot = Snapshot(elements: seq<Element>, backgroundImage: Option<Raster>)

  /** Every entry of the history holds only upright boxes. */
  predicate UprightHistory(history: seq<Snapshot>) {
    forall k :: 0 <= k < |history| ==> AllUpright(history[k].elements)
  }

  /**
    The settings updateColorPickerFromSelectedElement takes from the element
    `e`: its colour always; its secondary colour, stroke width and arrow head
    size only when they are truthy (non-empty, non-zero); the font size never.
  */
  function PickedStyle(e: Element, s: Style): Style {
    Style(e.color,
          if e.secondaryColor != "" then e.secondaryColor else s.secondaryColor,
          if e.strokeWidth != 0 then e.strokeWidth else s.strokeWidth,
          if e.Figure? && e.arrowSize != 0 then e.arrowSize else s.arrowSize,
          s.fontSize)
  }

  /**
    Selecting an element picks up the settings it was drawn with: a figure
    drawn in a style with truthy settings gives that style back, whatever the
    settings were before.
  */
  lemma PickUpDrawnStyle(kind: Kind, x1: real, y1: real, x2: real, y2: real, text: string, id: real, style: Style, before: Style)
    requires style.secondaryColor != "" && style.strokeWidth != 0 && style.arrowSize != 0
    ensures PickedStyle(NewFigure(kind, x1, y1, x2, y2, text, id, style), before) == style.(fontSize := before.fontSize)
  {
  }

  /** The history after saving `s` with the cursor at `cursor`: everything after the cursor is dropped. */
  function Pushed(history: seq<Snapshot>, cursor: int, s: Snapshot): (h: seq<Snapshot>)
    requires -1 <= cursor < |history|
    ensures |h| == cursor + 2 && h[cursor + 1] == s
    ensures forall i :: 0 <= i <= cursor ==> h[i] == history[i]
  {
    history[..cursor + 1] + [s]
  }

  /**
    Undo followed by a new edit: with N entries and the cursor on the last,
    the history keeps N entries, the undone entry is replaced by the new one,
    and the entries up to the new cursor are untouched.
  */
  lemma UndoThenCommit(history: seq<Snapshot>, s: Snapshot)
    requires |history| >= 2
    ensures var h := Pushed(history, |history| - 2, s);
      |h| == |history| && h[|h| - 1] == s && h[..|h| - 1] == history[..|history| - 1]
  {
  }

  class ImageEditor {
    var currentTool: Tool
    var isDrawing: bool
    var startX: real
    var startY: real
    var currentColor: string
    var secondaryColor: string
    var fontSize: int
    var strokeWidth: int
    var arrowSize: int
    var elements: seq<Element>
    var selectedElement: Ref
    var history: seq<Snapshot>
    var historyIndex: int
    var backgroundImage: Option<Raster>
    var isResizing: bool
    var resizeHandle: Option<Kind>
    var drawingPath: seq<Point>
    var lastX: real
    var lastY: real
    /** The grab offset selectElement records for the drag. */
    var offsetX: real
    var offsetY: real
    var tempTextPosition: Option<Point>
    var editingElement: Ref
    /** The canvas text measurement. */
    const measure: Metrics

    /**
      The history cursor names an entry, both references name live or
      detached objects, and no rectangle or circle, live or saved, has a
      negative extent.
    */
    predicate Valid()
      reads this`historyIndex, this`history, this`selectedElement, this`elements, this`editingElement
    {
      0 <= historyIndex < |history| &&
      RefOk(selectedElement, elements) && RefOk(editingElement, elements) &&
      AllUpright(elements) && UprightHistory(history)
    }

    function CurrentStyle(): (s: Style)
      reads this`currentColor, this`secondaryColor, this`strokeWidth, this`arrowSize, this`fontSize
      ensures s.color == currentColor && s.secondaryColor == secondaryColor
      ensures s.strokeWidth == strokeWidth && s.arrowSize == arrowSize && s.fontSize == fontSize
    {
      Style(currentColor, secondaryColor, strokeWidth, arrowSize, fontSize)
    }

    function Selected(): (e: Option<Element>)
      reads this`selectedElement, this`elements
      requires RefOk(selectedElement, elements)
      ensures e.None? <==> selectedElement.Null?
    {
      Deref(selectedElement, elements)
    }

    /** The constructor's defaults, then the initial save of the empty scene. */
    constructor (measure: Metrics)
      ensures Valid() && this.measure == measure
      ensures currentTool == SelectTool && !isDrawing && !isResizing && resizeHandle.None?
      ensures startX == 0.0 && startY == 0.0 && lastX == 0.0 && lastY == 0.0
      ensures currentColor == "#000000" && secondaryColor == "#ffffff"
      ensures fontSize == 24 && strokeWidth == 2 && arrowSize == 10
      ensures elements == [] && selectedElement.Null? && backgroundImage.None?
      ensures history == [Snapshot([], None)] && historyIndex == 0
      ensures drawingPath == [] && tempTextPosition.None? && editingElement.Null?
    {
      this.measure := measure;
      currentTool := SelectTool;
      isDrawing := false;
      startX, startY := 0.0, 0.0;
      currentColor, secondaryColor := "#000000", "#ffffff";
      fontSize, strokeWidth, arrowSize := 24, 2, 10;
      elements := [];
      selectedElement := Null;
      history := [];
      historyIndex := -1;
      backgroundImage := None;
      isResizing := false;
      resizeHandle := None;
      drawingPath := [];
      lastX, lastY := 0.0, 0.0;
      offsetX, offsetY := 0.0, 0.0;
      tempTextPosition := None;
      editingElement := Null;
      new;
      SaveState();
    }

    method SetTool(tool: Tool)
      modifies this`currentTool
      ensures currentTool == tool
    {
      currentTool := tool;
    }

    /** saveState: drop the entries after the cursor, append a copy of the scene, advance the cursor. */
    method SaveState()
      requires -1 <= historyIndex < |history|
      requires AllUpright(elements) && UprightHistory(history)
      modifies this`history, this`historyIndex
      ensures UprightHistory(history)
      ensures history == Pushed(old(history), old(historyIndex), Snapshot(elements, backgroundImage))
      ensures historyIndex == old(historyIndex) + 1 == |history| - 1
    {
      history := history[..historyIndex + 1] + [Snapshot(elements, backgroundImage)];
      historyIndex := historyIndex + 1;
    }

    /**
      undo: at the first entry nothing changes; otherwise the cursor steps back
      one entry, the scene becomes a copy of that entry and the selection is
      cleared. The history itself is never touched. The element being edited
      is no longer in the restored list.
    */
    method Undo()
      requires Valid()
      modifies this`historyIndex, this`elements, this`backgroundImage, this`selectedElement, this`editingElement
      ensures Valid() && history == old(history)
      ensures old(historyIndex) == 0 ==>
        historyIndex == 0 && elements == old(elements) && backgroundImage == old(backgroundImage) &&
        selectedElement == old(selectedElement) && editingElement == old(editingElement)
      ensures old(historyIndex) > 0 ==>
        historyIndex == old(historyIndex) - 1 &&
        elements == history[historyIndex].elements && backgroundImage == history[historyIndex].backgroundImage &&
        selectedElement == Null && editingElement == Detach(old(editingElement), old(elements))
    {
      if historyIndex > 0 {
        historyIndex := historyIndex - 1;
        var state := history[historyIndex];
        editingElement := Detach(editingElement, elements);
        elements := state.elements;
        backgroundImage := state.backgroundImage;
        selectedElement := Null;
      }
    }

    /** clear, once the user confirms: an empty scene, no selection, and a history entry for it. */
    method Clear(confirmed: bool)
      requires Valid()
      modifies this`elements, this`selectedElement, this`editingElement, this`history, this`historyIndex
      ensures Valid()
      ensures !confirmed ==>
        elements == old(elements) && selectedElement == old(selectedElement) &&
        editingElement == old(editingElement) && history == old(history) && historyIndex == old(historyIndex)
      ensures confirmed ==>
        elements == [] && selectedElement == Null && editingElement == Detach(old(editingElement), old(elements)) &&
        history == Pushed(old(history), old(historyIndex), Snapshot([], backgroundImage)) &&
        historyIndex == old(historyIndex) + 1
    {
      if confirmed {
        editingElement := Detach(editingElement, elements);
        elements := [];
        selectedElement := Null;
        SaveState();
      }
    }

    /**
      deleteSelectedElement: a selected element that is in the list is spliced
      out, the selection is cleared and the new scene saved; a detached
      selection or none changes nothing.
    */
    method DeleteSelectedElement()
      requires Valid()
      modifies this`elements, this`selectedElement, this`editingElement, this`history, this`historyIndex
      ensures Valid()
      ensures !old(selectedElement).At? ==>
        elements == old(elements) && selectedElement == old(selectedElement) &&
        editingElement == old(editingElement) && history == old(history) && historyIndex == old(historyIndex)
      ensures old(selectedElement).At? ==>
        var k := old(selectedElement).index;
        elements == RemoveAt(old(elements), k) && selectedElement == Null &&
        editingElement == AfterRemoval(old(editingElement), old(elements), k) &&
        history == Pushed(old(history), old(historyIndex), Snapshot(elements, backgroundImage)) &&
        historyIndex == old(historyIndex) + 1
    {
      if !selectedElement.Null? && IndexOf(selectedElement) > -1 {
        RemoveSelected();
      }
    }

    /**
      The splice of deleteSelectedElement: the selected element leaves the
      list, the selection is cleared, and the new scene is saved.
    */
    method RemoveSelected()
      requires Valid() && selectedElement.At?
      modifies this`elements, this`selectedElement, this`editingElement, this`history, this`historyIndex
      ensures Valid()
      ensures var k := old(selectedElement).index;
        elements == RemoveAt(old(elements), k) && selectedElement == Null &&
        editingElement == AfterRemoval(old(editingElement), old(elements), k) &&
        history == Pushed(old(history), old(historyIndex), Snapshot(elements, backgroundImage)) &&
        historyIndex == old(historyIndex) + 1
    {
      var index := selectedElement.index;
      editingElement := AfterRemoval(editingElement, elements, index);
      elements := RemoveAt(elements, index);
      selectedElement := Null;
      SaveState();
    }

    /** addElement: one new figure in the current style, appended on top, and saved. */
    method AddElement(kind: Kind, x1: real, y1: real, x2: real, y2: real, text: string, id: real)
      requires Valid()
      modifies this`elements, this`history, this`historyIndex
      ensures Valid()
      ensures elements == old(elements) + [NewFigure(kind, x1, y1, x2, y2, text, id, CurrentStyle())]
      ensures history == Pushed(old(history), old(historyIndex), Snapshot(elements, backgroundImage)) &&
        historyIndex == old(historyIndex) + 1
    {
      elements := elements + [NewFigure(kind, x1, y1, x2, y2, text, id, CurrentStyle())];
      SaveState();
    }

    /** addPenElement: one new stroke along a copy of the path, appended on top, and saved. */
    method AddPenElement(path: seq<Point>, id: real)
      requires Valid()
      modifies this`elements, this`history, this`historyIndex
      ensures Valid()
      ensures elements == old(elements) + [NewStroke(path, id, CurrentStyle())]
      ensures history == Pushed(old(history), old(historyIndex), Snapshot(elements, backgroundImage)) &&
        historyIndex == old(historyIndex) + 1
    {
      elements := elements + [NewStroke(path, id, CurrentStyle())];
      SaveState();
    }

    /** isPointInElement, scanning a pen stroke's segments in order until one is near enough. */
    method IsPointInElement(p: Point, e: Element) returns (hit: bool)
      ensures hit == Hits(e, p, measure, strokeWidth)
    {
      match e
      case Figure(_, kind, x, y, w, h, _, _, _, _, fs, text) =>
        if kind == Text {
          var textWidth := measure(text, fs);
          hit := p.x >= x && p.x <= x + textWidth && p.y >= y - fs as real && p.y <= y;
        } else if kind == Line || kind == Arrow {
          hit := WithinDistance(p, Point(x, y), Point(x + w, y + h), 5.0);
        } else {
          hit := p.x >= x && p.x <= x + w && p.y >= y && p.y <= y + h;
        }
      case Stroke(_, path, _, _, _) =>
        var tolerance := PenTolerance(strokeWidth);
        var i := 1;
        while i < |path|
          invariant 1 <= i
          invariant forall k :: 1 <= k < i && k < |path| ==> !WithinDistance(p, path[k - 1], path[k], tolerance)
        {
          if WithinDistance(p, path[i - 1], path[i], tolerance) {
            return true;
          }
          i := i + 1;
        }
        hit := false;
    }

    /**
      updateColorPickerFromSelectedElement: the selected element's colour
      becomes the current colour; its secondary colour, stroke width and arrow
      size are taken over only when set (non-empty, non-zero).
    */
    method UpdateColorPickerFromSelectedElement()
      requires RefOk(selectedElement, elements)
      modifies this`currentColor, this`secondaryColor, this`strokeWidth, this`arrowSize
      ensures Selected().None? ==> CurrentStyle() == old(CurrentStyle())
      ensures Selected().Some? ==> CurrentStyle() == PickedStyle(Selected().value, old(CurrentStyle()))
    {
      if !selectedElement.Null? {
        var e := Deref(selectedElement, elements).value;
        currentColor := e.color;
        if e.secondaryColor != "" {
          secondaryColor := e.secondaryColor;
        }
        if e.strokeWidth != 0 {
          strokeWidth := e.strokeWidth;
        }
        if e.Figure? && e.arrowSize != 0 {
          arrowSize := e.arrowSize;
        }
      }
    }

    /**
      selectElement's scan: from the last element down, the first one the
      point hits, so the topmost element wins.
    */
    method FindTopmost(p: Point) returns (top: Option<nat>)
      ensures top == Topmost(elements, p, measure, strokeWidth)
    {
      var i := |elements|;
      while i > 0
        invariant 0 <= i <= |elements|
        invariant forall j :: i <= j < |elements| ==> !Hits(elements[j], p, measure, strokeWidth)
      {
        i := i - 1;
        var hit := IsPointInElement(p, elements[i]);
        if hit {
          return Some(i);
        }
      }
      return None;
    }

    /**
      selectElement: selects the topmost element hit, or nothing; records the
      grab offset of a figure; answers whether anything was selected.
    */
    method SelectElement(p: Point) returns (found: bool)
      requires Valid()
      modifies this`selectedElement, this`offsetX, this`offsetY,
               this`currentColor, this`secondaryColor, this`strokeWidth, this`arrowSize
      ensures Valid()
      ensures var top := Topmost(elements, p, measure, old(strokeWidth));
        found == top.Some? && selectedElement == (if top.Some? then At(top.value) else Null) &&
        (top.None? ==> CurrentStyle() == old(CurrentStyle()) && offsetX == old(offsetX) && offsetY == old(offsetY)) &&
        (top.Some? ==> CurrentStyle() == PickedStyle(elements[top.value], old(CurrentStyle()))) &&
        (top.Some? && elements[top.value].Figure? ==>
          offsetX == p.x - elements[top.value].x && offsetY == p.y - elements[top.value].y) &&
        (top.Some? && elements[top.value].Stroke? ==> offsetX == old(offsetX) && offsetY == old(offsetY))
    {
      var top := FindTopmost(p);
      selectedElement := if top.Some? then At(top.value) else Null;
      if top.Some? && elements[top.value].Figure? {
        offsetX := p.x - elements[top.value].x;
        offsetY := p.y - elements[top.value].y;
      }
      UpdateColorPickerFromSelectedElement();
      found := top.Some?;
    }

    /**
      checkResizeHandle: the selected element's kind when the point lies on
      its handle, nothing when there is no selection or the point is off the
      handle.
    */
    function CheckResizeHandle(p: Point): (handle: Option<Kind>)
      reads this`selectedElement, this`elements
      requires RefOk(selectedElement, elements)
      ensures handle.Some? <==> Selected().Some? && OnHandle(Selected().value, p, measure)
      ensures handle.Some? ==> Selected().value.Figure? && handle.value == Selected().value.kind
    {
      match Selected()
      case None => None
      case Some(e) => if OnHandle(e, p, measure) then Some(e.kind) else None
    }

    /** Writes `e` through the selection into the list or the detached object. */
    method StoreSelected(e: Element)
      requires Valid() && !selectedElement.Null? && (selectedElement.At? ==> Upright(e))
      modifies this`selectedElement, this`elements
      ensures Valid() && Selected() == Some(e) && |elements| == |old(elements)|
      ensures selectedElement.At? <==> old(selectedElement).At?
      ensures forall i :: 0 <= i < |elements| && !(old(selectedElement).At? && old(selectedElement).index == i) ==>
        elements[i] == old(elements)[i]
      ensures selectedElement.At? ==> selectedElement == old(selectedElement)
    {
      var r := Store(selectedElement, elements, e);
      selectedElement, elements := r.0, r.1;
    }

    /** resizeElement: the selected element, if any, is resized towards the pointer. */
    method ResizeElement(p: Point)
      requires Valid()
      modifies this`selectedElement, this`elements
      ensures Valid() && |elements| == |old(elements)|
      ensures old(selectedElement).Null? ==> selectedElement == Null && elements == old(elements)
      ensures !old(selectedElement).Null? ==>
        Selected() == Some(Resized(old(Selected()).value, p, measure)) &&
        (selectedElement.At? <==> old(selectedElement).At?) &&
        (selectedElement.At? ==> selectedElement == old(selectedElement))
      ensures forall i :: 0 <= i < |elements| && !(old(selectedElement).At? && old(selectedElement).index == i) ==>
        elements[i] == old(elements)[i]
    {
      if !selectedElement.Null? {
        StoreSelected(Resized(Deref(selectedElement, elements).value, p, measure));
      }
    }

    /** updateSelectedElementColor: recolour the selected element and save. */
    method UpdateSelectedElementColor()
      requires Valid()
      modifies this`selectedElement, this`elements, this`history, this`historyIndex
      ensures Valid()
      ensures old(selectedElement).Null? ==>
        selectedElement == Null && elements == old(elements) && history == old(history) && historyIndex == old(historyIndex)
      ensures !old(selectedElement).Null? ==>
        Selected() == Some(WithColor(old(Selected()).value, currentColor)) &&
        history == Pushed(old(history), old(historyIndex), Snapshot(elements, backgroundImage)) &&
        historyIndex == old(historyIndex) + 1
      ensures |elements| == |old(elements)| && (selectedElement.At? <==> old(selectedElement).At?)
      ensures forall i :: 0 <= i < |elements| && !(old(selectedElement).At? && old(selectedElement).index == i) ==>
        elements[i] == old(elements)[i]
    {
      if !selectedElement.Null? {
        StoreSelected(WithColor(Deref(selectedElement, elements).value, currentColor));
        SaveState();
      }
    }

    /** updateSelectedElementSecondaryColor: change the selected element's secondary colour and save. */
    method UpdateSelectedElementSecondaryColor()
      requires Valid()
      modifies this`selectedElement, this`elements, this`history, this`historyIndex
      ensures Valid()
      ensures old(selectedElement).Null? ==>
        selectedElement == Null && elements == old(elements) && history == old(history) && historyIndex == old(historyIndex)
      ensures !old(selectedElement).Null? ==>
        Selected() == Some(WithSecondaryColor(old(Selected()).value, secondaryColor)) &&
        history == Pushed(old(history), old(historyIndex), Snapshot(elements, backgroundImage)) &&
        historyIndex == old(historyIndex) + 1
      ensures |elements| == |old(elements)| && (selectedElement.At? <==> old(selectedElement).At?)
      ensures forall i :: 0 <= i < |elements| && !(old(selectedElement).At? && old(selectedElement).index == i) ==>
        elements[i] == old(elements)[i]
    {
      if !selectedElement.Null? {
        StoreSelected(WithSecondaryColor(Deref(selectedElement, elements).value, secondaryColor));
        SaveState();
      }
    }

    /** updateSelectedElementStrokeWidth: change the selected element's stroke width and save. */
    method UpdateSelectedElementStrokeWidth()
      requires Valid()
      modifies this`selectedElement, this`elements, this`history, this`historyIndex
      ensures Valid()
      ensures old(selectedElement).Null? ==>
        selectedElement == Null && elements == old(elements) && history == old(history) && historyIndex == old(historyIndex)
      ensures !old(selectedElement).Null? ==>
        Selected() == Some(WithStrokeWidth(old(Selected()).value, strokeWidth)) &&
        history == Pushed(old(history), old(historyIndex), Snapshot(elements, backgroundImage)) &&
        historyIndex == old(historyIndex) + 1
      ensures |elements| == |old(elements)| && (selectedElement.At? <==> old(selectedElement).At?)
      ensures forall i :: 0 <= i < |elements| && !(old(selectedElement).At? && old(selectedElement).index == i) ==>
        elements[i] == old(elements)[i]
    {
      if !selectedElement.Null? {
        StoreSelected(WithStrokeWidth(Deref(selectedElement, elements).value, strokeWidth));
        SaveState();
      }
    }

    /** updateSelectedElementArrowSize: only a selected arrow changes its head size, and only then is it saved. */
    method UpdateSelectedElementArrowSize()
      requires Valid()
      modifies this`selectedElement, this`elements, this`history, this`historyIndex
      ensures Valid()
      ensures !(old(Selected()).Some? && old(Selected()).value.Figure? && old(Selected()).value.kind == Arrow) ==>
        selectedElement == old(selectedElement) && elements == old(elements) &&
        history == old(history) && historyIndex == old(historyIndex)
      ensures old(Selected()).Some? && old(Selected()).value.Figure? && old(Selected()).value.kind == Arrow ==>
        Selected() == Some(old(Selected()).value.(arrowSize := arrowSize)) &&
        history == Pushed(old(history), old(historyIndex), Snapshot(elements, backgroundImage)) &&
        historyIndex == old(historyIndex) + 1
      ensures |elements| == |old(elements)| && (selectedElement.At? <==> old(selectedElement).At?)
      ensures forall i :: 0 <= i < |elements| && !(old(selectedElement).At? && old(selectedElement).index == i) ==>
        elements[i] == old(elements)[i]
    {
      if !selectedElement.Null? {
        var e := Deref(selectedElement, elements).value;
        if e.Figure? && e.kind == Arrow {
          StoreSelected(WithArrowSize(e, arrowSize));
          SaveState();
        }
      }
    }

    /** editTextElement: remember where the text sits and which element the dialog will replace. */
    method EditTextElement(target: Ref)
      requires Valid() && RefOk(target, elements) && target != Null
      requires Deref(target, elements).value.Figure?
      modifies this`tempTextPosition, this`editingElement
      ensures Valid()
      ensures var e := Deref(target, elements).value;
        tempTextPosition == Some(Point(e.x, e.y)) && editingElement == target
    {
      var e := Deref(target, elements).value;
      tempTextPosition := Some(Point(e.x, e.y));
      editingElement := target;
    }

    /** hideTextModal: the dialog forgets its position and the element it was editing. */
    method HideTextModal()
      modifies this`tempTextPosition, this`editingElement
      ensures tempTextPosition.None? && editingElement == Null
    {
      tempTextPosition := None;
      editingElement := Null;
    }

    /**
      The edited element, when it is still in the list, is spliced out; the
      selection keeps naming the same object; the dialog stops editing.
    */
    method DropEditedElement()
      requires Valid()
      modifies this`elements, this`selectedElement, this`editingElement
      ensures Valid() && editingElement == Null
      ensures old(editingElement).At? ==>
        var k := old(editingElement).index;
        elements == RemoveAt(old(elements), k) &&
        selectedElement == AfterRemoval(old(selectedElement), old(elements), k)
      ensures !old(editingElement).At? ==> elements == old(elements) && selectedElement == old(selectedElement)
    {
      var index := IndexOf(editingElement);
      if index > -1 {
        selectedElement := AfterRemoval(selectedElement, elements, index);
        elements := RemoveAt(elements, index);
      }
      editingElement := Null;
    }

    /** The commit step of addText: the edited element, if still listed, is replaced by a new text element on top. */
    method PlaceText(pos: Point, text: string, id: real)
      requires Valid()
      modifies this`elements, this`selectedElement, this`editingElement, this`history, this`historyIndex
      ensures Valid() && editingElement == Null
      ensures history == Pushed(old(history), old(historyIndex), Snapshot(elements, backgroundImage)) &&
        historyIndex == old(historyIndex) + 1
      ensures
        var t := NewFigure(Text, pos.x, pos.y, 0.0, 0.0, text, id, CurrentStyle());
        if old(editingElement).At? then
          var k := old(editingElement).index;
          elements == RemoveAt(old(elements), k) + [t] &&
          selectedElement == AfterRemoval(old(selectedElement), old(elements), k)
        else
          elements == old(elements) + [t] && selectedElement == old(selectedElement)
    {
      DropEditedElement();
      AddElement(Text, pos.x, pos.y, 0.0, 0.0, text, id);
    }

    /**
      addText: the dialog's text, trimmed, becomes a new text element at the
      remembered position; when an element was being edited and is still in
      the list, it is spliced out first, so an edit is a replacement on top.
      Empty text or no position adds nothing. The dialog is closed either way.
    */
    method AddText(input: string, id: real)
      requires Valid()
      modifies this`elements, this`selectedElement, this`editingElement, this`tempTextPosition,
               this`history, this`historyIndex
      ensures Valid() && tempTextPosition.None? && editingElement == Null
      ensures Trim(input) == [] || old(tempTextPosition).None? ==>
        elements == old(elements) && selectedElement == old(selectedElement) &&
        history == old(history) && historyIndex == old(historyIndex)
      ensures Trim(input) != [] && old(tempTextPosition).Some? ==>
        history == Pushed(old(history), old(historyIndex), Snapshot(elements, backgroundImage)) &&
        historyIndex == old(historyIndex) + 1
      ensures Trim(input) != [] && old(tempTextPosition).Some? ==>
        var pos := old(tempTextPosition).value;
        var t := NewFigure(Text, pos.x, pos.y, 0.0, 0.0, Trim(input), id, CurrentStyle());
        if old(editingElement).At? then
          var k := old(editingElement).index;
          elements == RemoveAt(old(elements), k) + [t] &&
          selectedElement == AfterRemoval(old(selectedElement), old(elements), k)
        else
          elements == old(elements) + [t] && selectedElement == old(selectedElement)
    {
      var text := Trim(input);
      if text != [] && tempTextPosition.Some? {
        PlaceText(tempTextPosition.value, text, id);
      }
      HideTextModal();
    }

    /**
      The select tool's press: the start point is recorded; then a resize on
      the selection's handle, otherwise a selection and the start of a drag on a hit.
    */
    method PressSelect(p: Point)
      requires Valid()
      modifies this`startX, this`startY, this`isResizing, this`resizeHandle, this`selectedElement, this`offsetX,
               this`offsetY, this`currentColor, this`secondaryColor, this`strokeWidth, this`arrowSize, this`isDrawing
      ensures Valid() && startX == p.x && startY == p.y
      ensures old(CheckResizeHandle(p)).Some? ==>
        isResizing && resizeHandle == old(CheckResizeHandle(p)) &&
        selectedElement == old(selectedElement) && isDrawing == old(isDrawing) &&
        offsetX == old(offsetX) && offsetY == old(offsetY) && CurrentStyle() == old(CurrentStyle())
      ensures old(CheckResizeHandle(p)).None? ==>
        var top := Topmost(elements, p, measure, old(strokeWidth));
        selectedElement == (if top.Some? then At(top.value) else Null) &&
        isDrawing == (top.Some? || old(isDrawing)) &&
        isResizing == old(isResizing) && resizeHandle == old(resizeHandle) &&
        (top.None? ==> CurrentStyle() == old(CurrentStyle()) && offsetX == old(offsetX) && offsetY == old(offsetY)) &&
        (top.Some? ==> CurrentStyle() == PickedStyle(elements[top.value], old(CurrentStyle()))) &&
        (top.Some? && elements[top.value].Figure? ==>
          offsetX == p.x - elements[top.value].x && offsetY == p.y - elements[top.value].y) &&
        (top.Some? && elements[top.value].Stroke? ==> offsetX == old(offsetX) && offsetY == old(offsetY))
    {
      var handle := CheckResizeHandle(p);
      if handle.Some? {
        StartResize(p, handle);
      } else {
        StartDrag(p);
      }
    }

    /** A press on the selection's handle: the start point is recorded and a resize of that kind begins. */
    method StartResize(p: Point, handle: Option<Kind>)
      modifies this`startX, this`startY, this`isResizing, this`resizeHandle
      ensures startX == p.x && startY == p.y && isResizing && resizeHandle == handle
    {
      startX, startY := p.x, p.y;
      isResizing := true;
      resizeHandle := handle;
    }

    /** A press off the handle: the start point is recorded, and a hit selects the element and starts a drag. */
    method StartDrag(p: Point)
      requires Valid()
      modifies this`startX, this`startY, this`selectedElement, this`offsetX, this`offsetY,
               this`currentColor, this`secondaryColor, this`strokeWidth, this`arrowSize, this`isDrawing
      ensures Valid() && startX == p.x && startY == p.y
      ensures var top := Topmost(elements, p, measure, old(strokeWidth));
        selectedElement == (if top.Some? then At(top.value) else Null) &&
        isDrawing == (top.Some? || old(isDrawing)) &&
        (top.None? ==> CurrentStyle() == old(CurrentStyle()) && offsetX == old(offsetX) && offsetY == old(offsetY)) &&
        (top.Some? ==> CurrentStyle() == PickedStyle(elements[top.value], old(CurrentStyle()))) &&
        (top.Some? && elements[top.value].Figure? ==>
          offsetX == p.x - elements[top.value].x && offsetY == p.y - elements[top.value].y) &&
        (top.Some? && elements[top.value].Stroke? ==> offsetX == old(offsetX) && offsetY == old(offsetY))
    {
      var found := SelectElement(p);
      startX, startY, isDrawing := p.x, p.y, found || isDrawing;
    }

    /** The text tool's press: the start point is recorded and the text dialog opens there. */
    method PressText(p: Point)
      modifies this`startX, this`startY, this`tempTextPosition
      ensures startX == p.x && startY == p.y && tempTextPosition == Some(p)
    {
      startX, startY := p.x, p.y;
      tempTextPosition := Some(p);
    }

    /** A drawing tool's press: the start point is recorded, drawing starts, and the pen starts a new path at the point. */
    method PressDraw(p: Point)
      modifies this`startX, this`startY, this`isDrawing, this`drawingPath, this`lastX, this`lastY
      ensures startX == p.x && startY == p.y && isDrawing
      ensures currentTool == PenTool ==> drawingPath == [p] && lastX == p.x && lastY == p.y
      ensures currentTool != PenTool ==> drawingPath == old(drawingPath) && lastX == old(lastX) && lastY == old(lastY)
    {
      startX, startY := p.x, p.y;
      isDrawing := true;
      if currentTool == PenTool {
        drawingPath := [p];
        lastX, lastY := p.x, p.y;
      }
    }

    /**
      handleMouseDown: records the start point, then by tool: text opens the
      dialog at the point; select starts a resize when the point is on the
      selected element's handle, and otherwise selects and starts a drag on a
      hit; pen starts a new path; every other tool starts drawing.
    */
    method HandleMouseDown(p: Point)
      requires Valid()
      modifies this`startX, this`startY, this`tempTextPosition, this`isResizing, this`resizeHandle,
               this`selectedElement, this`offsetX, this`offsetY, this`currentColor, this`secondaryColor,
               this`strokeWidth, this`arrowSize, this`isDrawing, this`drawingPath, this`lastX, this`lastY
      ensures Valid() && startX == p.x && startY == p.y
      ensures currentTool == TextTool ==>
        tempTextPosition == Some(p) && isDrawing == old(isDrawing) &&
        selectedElement == old(selectedElement) && isResizing == old(isResizing) && resizeHandle == old(resizeHandle) &&
        offsetX == old(offsetX) && offsetY == old(offsetY) && CurrentStyle() == old(CurrentStyle()) &&
        drawingPath == old(drawingPath) && lastX == old(lastX) && lastY == old(lastY)
      ensures currentTool == SelectTool ==>
        tempTextPosition == old(tempTextPosition) &&
        drawingPath == old(drawingPath) && lastX == old(lastX) && lastY == old(lastY)
      ensures currentTool == SelectTool && old(CheckResizeHandle(p)).Some? ==>
        isResizing && resizeHandle == old(CheckResizeHandle(p)) &&
        selectedElement == old(selectedElement) && isDrawing == old(isDrawing) &&
        offsetX == old(offsetX) && offsetY == old(offsetY) && CurrentStyle() == old(CurrentStyle())
      ensures currentTool == SelectTool && old(CheckResizeHandle(p)).None? ==>
        var top := Topmost(elements, p, measure, old(strokeWidth));
        selectedElement == (if top.Some? then At(top.value) else Null) &&
        isDrawing == (top.Some? || old(isDrawing)) &&
        isResizing == old(isResizing) && resizeHandle == old(resizeHandle) &&
        (top.None? ==> CurrentStyle() == old(CurrentStyle()) && offsetX == old(offsetX) && offsetY == old(offsetY)) &&
        (top.Some? ==> CurrentStyle() == PickedStyle(elements[top.value], old(CurrentStyle()))) &&
        (top.Some? && elements[top.value].Figure? ==>
          offsetX == p.x - elements[top.value].x && offsetY == p.y - elements[top.value].y) &&
        (top.Some? && elements[top.value].Stroke? ==> offsetX == old(offsetX) && offsetY == old(offsetY))
      ensures currentTool != TextTool && currentTool != SelectTool ==>
        isDrawing && tempTextPosition == old(tempTextPosition) &&
        selectedElement == old(selectedElement) && isResizing == old(isResizing) && resizeHandle == old(resizeHandle) &&
        offsetX == old(offsetX) && offsetY == old(offsetY) && CurrentStyle() == old(CurrentStyle()) &&
        (currentTool == PenTool ==> drawingPath == [p] && lastX == p.x && lastY == p.y) &&
        (currentTool != PenTool ==> drawingPath == old(drawingPath) && lastX == old(lastX) && lastY == old(lastY))
    {
      hide *;
      if currentTool == TextTool {
        PressText(p);
      } else if currentTool == SelectTool {
        PressSelect(p);
      } else {
        PressDraw(p);
      }
    }

    /**
      handleMouseMove: with the select tool and a selection, a resize in
      progress resizes and a drag in progress sets the origin to the pointer
      minus the grab offset; with the pen, a stroke in progress grows by the
      point. Previews and cursor changes alter no state.
    */
    method HandleMouseMove(p: Point)
      requires Valid()
      modifies this`selectedElement, this`elements, this`drawingPath, this`lastX, this`lastY
      ensures Valid() && |elements| == |old(elements)|
      ensures forall i :: 0 <= i < |elements| && !(old(selectedElement).At? && old(selectedElement).index == i) ==>
        elements[i] == old(elements)[i]
      ensures (selectedElement.At? <==> old(selectedElement).At?) &&
        (selectedElement.At? ==> selectedElement == old(selectedElement))
      ensures currentTool == SelectTool && !old(selectedElement).Null? && isResizing ==>
        Selected() == Some(Resized(old(Selected()).value, p, measure))
      ensures currentTool == SelectTool && !old(selectedElement).Null? && !isResizing && isDrawing ==>
        Selected() == Some(Moved(old(Selected()).value, p.x - offsetX, p.y - offsetY))
      ensures !(currentTool == SelectTool && !old(selectedElement).Null? && (isResizing || isDrawing)) ==>
        elements == old(elements) && selectedElement == old(selectedElement)
      ensures currentTool == PenTool && isDrawing ==>
        drawingPath == old(drawingPath) + [p] && lastX == p.x && lastY == p.y
      ensures !(currentTool == PenTool && isDrawing) ==>
        drawingPath == old(drawingPath) && lastX == old(lastX) && lastY == old(lastY)
    {
      if currentTool == SelectTool && !selectedElement.Null? && isResizing {
        ResizeElement(p);
      } else if currentTool == SelectTool && !selectedElement.Null? && isDrawing {
        StoreSelected(Moved(Deref(selectedElement, elements).value, p.x - offsetX, p.y - offsetY));
      } else if currentTool == PenTool && isDrawing {
        drawingPath := drawingPath + [p];
        lastX, lastY := p.x, p.y;
      }
    }

    /**
      What a release commits, by tool: a shape tool adds the figure from the
      start point to here, the pen adds its path when it has at least two
      points, the select tool saves the finished move or resize; the crop tool
      hands the rectangle to the cropper and the text tool commits nothing.
    */
    method FinishGesture(p: Point, path: seq<Point>, id: real)
      requires Valid()
      modifies this`elements, this`history, this`historyIndex
      ensures Valid()
      ensures ShapeKind(currentTool).Some? ==>
        elements == old(elements) + [NewFigure(ShapeKind(currentTool).value, startX, startY, p.x, p.y, "", id, CurrentStyle())] &&
        history == Pushed(old(history), old(historyIndex), Snapshot(elements, backgroundImage)) &&
        historyIndex == old(historyIndex) + 1
      ensures currentTool == PenTool && |path| > 1 ==>
        elements == old(elements) + [NewStroke(path, id, CurrentStyle())] &&
        history == Pushed(old(history), old(historyIndex), Snapshot(elements, backgroundImage)) &&
        historyIndex == old(historyIndex) + 1
      ensures currentTool == SelectTool && !selectedElement.Null? ==>
        elements == old(elements) &&
        history == Pushed(old(history), old(historyIndex), Snapshot(elements, backgroundImage)) &&
        historyIndex == old(historyIndex) + 1
      ensures (currentTool == CropTool || currentTool == TextTool ||
               (currentTool == PenTool && |path| <= 1) ||
               (currentTool == SelectTool && selectedElement.Null?)) ==>
        elements == old(elements) && history == old(history) && historyIndex == old(historyIndex)
    {
      var kind := ShapeKind(currentTool);
      if kind.Some? {
        AddElement(kind.value, startX, startY, p.x, p.y, "", id);
      } else if currentTool == CropTool {
        // The crop rectangle goes to the raster cropper, which is not part of this model.
      } else if currentTool == PenTool && |path| > 1 {
        AddPenElement(path, id);
      } else if currentTool == SelectTool && !selectedElement.Null? {
        SaveState();
      }
    }

    /**
      handleMouseUp: ignored unless drawing or resizing; otherwise the gesture
      is committed as FinishGesture says, and every gesture flag is reset.
    */
    method HandleMouseUp(p: Point, id: real)
      requires Valid()
      modifies this`elements, this`history, this`historyIndex, this`isDrawing, this`isResizing,
               this`resizeHandle, this`drawingPath
      ensures Valid()
      ensures !old(isDrawing) && !old(isResizing) ==>
        elements == old(elements) && history == old(history) && historyIndex == old(historyIndex) &&
        isDrawing == old(isDrawing) && isResizing == old(isResizing) &&
        resizeHandle == old(resizeHandle) && drawingPath == old(drawingPath)
      ensures old(isDrawing) || old(isResizing) ==>
        !isDrawing && !isResizing && resizeHandle.None? && drawingPath == []
      ensures (old(isDrawing) || old(isResizing)) && ShapeKind(currentTool).Some? ==>
        elements == old(elements) + [NewFigure(ShapeKind(currentTool).value, startX, startY, p.x, p.y, "", id, CurrentStyle())] &&
        history == Pushed(old(history), old(historyIndex), Snapshot(elements, backgroundImage)) &&
        historyIndex == old(historyIndex) + 1
      ensures (old(isDrawing) || old(isResizing)) && currentTool == PenTool && |old(drawingPath)| > 1 ==>
        elements == old(elements) + [NewStroke(old(drawingPath), id, CurrentStyle())] &&
        history == Pushed(old(history), old(historyIndex), Snapshot(elements, backgroundImage)) &&
        historyIndex == old(historyIndex) + 1
      ensures (old(isDrawing) || old(isResizing)) && currentTool == SelectTool && !selectedElement.Null? ==>
        elements == old(elements) &&
        history == Pushed(old(history), old(historyIndex), Snapshot(elements, backgroundImage)) &&
        historyIndex == old(historyIndex) + 1
      ensures (currentTool == CropTool || currentTool == TextTool ||
               (currentTool == PenTool && |old(drawingPath)| <= 1) ||
               (currentTool == SelectTool && selectedElement.Null?)) ==>
        elements == old(elements) && history == old(history) && historyIndex == old(historyIndex)
    {
      if !isDrawing && !isResizing {
        return;
      }
      // The flags are cleared before the commit rather than after it; nothing the commit does reads them.
      var path := drawingPath;
      isDrawing := false;
      isResizing := false;
      resizeHandle := None;
      drawingPath := [];
      FinishGesture(p, path, id);
    }
  }

  /** The rectangle the worked session draws. */
  function RedSquare(): (e: Element)
    ensures e.Figure? && e.kind == Rect && e.color == "red"
    ensures e.x == 0.0 && e.y == 0.0 && e.width == 100.0 && e.height == 100.0
  {
    NewFigure(Rect, 0.0, 0.0, 100.0, 100.0, "", 1.0, Style("red", "#ffffff", 2, 10, 24))
  }

  /** A fresh editor, the rectangle tool, red, and the press at (0, 0). */
  method PressRedSquare(measure: Metrics) returns (ed: ImageEditor)
    ensures fresh(ed) && ed.Valid() && ed.measure == measure
    ensures ed.currentTool == RectTool && ed.isDrawing && ed.startX == 0.0 && ed.startY == 0.0
    ensures ed.CurrentStyle() == Style("red", "#ffffff", 2, 10, 24)
    ensures ed.elements == [] && ed.selectedElement == Null && ed.backgroundImage.None?
    ensures ed.history == [Snapshot([], None)] && ed.historyIndex == 0 && !ed.isResizing
  {
    ed := new ImageEditor(measure);
    ed.SetTool(RectTool);
    ed.currentColor := "red";
    assert ed.CurrentStyle() == Style("red", "#ffffff", 2, 10, 24);
    ed.HandleMouseDown(Point(0.0, 0.0));
  }

  /** A fresh editor, the rectangle tool, red, and a drag from (0, 0) to (100, 100). */
  method DrawRedSquare(measure: Metrics) returns (ed: ImageEditor)
    ensures fresh(ed) && ed.Valid() && ed.measure == measure
    ensures ed.elements == [RedSquare()] && ed.selectedElement == Null && ed.backgroundImage.None?
    ensures ed.history == [Snapshot([], None), Snapshot([RedSquare()], None)] && ed.historyIndex == 1
    ensures !ed.isDrawing && !ed.isResizing && ed.strokeWidth == 2
  {
    ed := PressRedSquare(measure);
    ed.HandleMouseUp(Point(100.0, 100.0), 1.0);
  }

  /** With the select tool: press on the rectangle at (50, 50), which selects it and starts a drag. */
  method Grab(ed: ImageEditor)
    requires ed.Valid() && ed.elements == [RedSquare()] && ed.selectedElement == Null
    requires !ed.isResizing && ed.strokeWidth == 2
    modifies ed
    ensures ed.Valid() && ed.elements == old(ed.elements) && ed.selectedElement == At(0)
    ensures ed.history == old(ed.history) && ed.historyIndex == old(ed.historyIndex)
    ensures ed.backgroundImage == old(ed.backgroundImage)
    ensures ed.currentTool == SelectTool && ed.isDrawing && !ed.isResizing
    ensures ed.offsetX == 50.0 && ed.offsetY == 50.0
  {
    ed.SetTool(SelectTool);
    var grab := Point(50.0, 50.0);
    assert Hits(RedSquare(), grab, ed.measure, ed.strokeWidth);
    assert Topmost(ed.elements, grab, ed.measure, ed.strokeWidth) == Some(0);
    hide *;
    ed.HandleMouseDown(grab);
  }

  /** Drag the grabbed rectangle to (70, 70) and release: it moves by (20, 20) and the move is saved. */
  method DragAndRelease(ed: ImageEditor)
    requires ed.Valid() && ed.elements == [RedSquare()] && ed.selectedElement == At(0)
    requires ed.currentTool == SelectTool && ed.isDrawing && !ed.isResizing
    requires ed.offsetX == 50.0 && ed.offsetY == 50.0
    modifies ed
    ensures ed.Valid() && ed.elements == [RedSquare().(x := 20.0, y := 20.0)] && ed.selectedElement == At(0)
    ensures ed.history == Pushed(old(ed.history), old(ed.historyIndex), Snapshot(ed.elements, ed.backgroundImage))
    ensures ed.historyIndex == old(ed.historyIndex) + 1 && ed.backgroundImage == old(ed.backgroundImage)
  {
    ed.HandleMouseMove(Point(70.0, 70.0));
    ed.HandleMouseUp(Point(70.0, 70.0), 2.0);
  }

  /**
    The worked session: draw a red rectangle from (0, 0) to (100, 100), grab
    it at (50, 50) and drag to (70, 70), delete it, then undo twice. Each undo
    brings back the list as it was one step earlier.
  */
  method DragDeleteUndoSession(measure: Metrics)
    returns (drawn: seq<Element>, moved: seq<Element>, deleted: seq<Element>, undone1: seq<Element>, undone2: seq<Element>)
    ensures drawn == [RedSquare()]
    ensures moved == [RedSquare().(x := 20.0, y := 20.0)]
    ensures deleted == []
    ensures undone1 == moved && undone2 == drawn
  {
    var ed := DrawRedSquare(measure);
    drawn := ed.elements;
    Grab(ed);
    DragAndRelease(ed);
    moved := ed.elements;
    assert ed.history[..3] == [Snapshot([], None), Snapshot(drawn, None), Snapshot(moved, None)] && ed.historyIndex == 2;

    ed.DeleteSelectedElement();
    deleted := ed.elements;

    ed.Undo();
    undone1 := ed.elements;
    ed.Undo();
    undone2 := ed.elements;
  }
}
