/**
  `getBodyWidth` of app/views/component/editor/Preview.jsx: the width of the
  preview body, from the editor mode, the editor's share of the split
  (`editorWidthValue`) and two measured widths. The `px` string the source
  builds is modelled as the number it prints.
 */
module Layout {
  import opened Wrappers
  import opened Js

  datatype BodyWidth = Percent100 | Px(width: real)

  /** The preview's root element once React has attached it; `offsetParent`
      is `null` when the element is not laid out. */
  datatype PreviewNode = PreviewNode(offsetParentWidth: Option<real>)

  /** The `#note_root_cont` element, if the document has one. */
  datatype NoteRoot = NoteRoot(offsetWidth: real)

  /** The modes in which the preview fills its container. */
  predicate IsFullWidthMode(editorMode: string) {
    editorMode == "normal" || editorMode == "preview"
  }

  /** The modes measured against the note container rather than the
      preview's offset parent. */
  predicate IsNoteRootMode(editorMode: string) {
    editorMode == "edit" || editorMode == "write"
  }

  /** The split of a measured width: the preview gets the part the editor
      leaves, `parentWidth * (1 - editorWidthValue)` pixels, when both
      numbers are truthy, and 100% otherwise. */
  function Split(parentWidth: real, editorWidthValue: real): BodyWidth {
    if editorWidthValue != 0.0 && parentWidth != 0.0 then Px(parentWidth * (1.0 - editorWidthValue))
    else Percent100
  }

  /** `getBodyWidth(props)`. Reading `offsetWidth` of a `null` offset parent
      throws a `TypeError`. */
  function GetBodyWidth(editorMode: string, editorWidthValue: real, preview: Option<PreviewNode>, noteRoot: Option<NoteRoot>): (r: Result<BodyWidth, JsError>)
    ensures IsFullWidthMode(editorMode) || preview.None? || noteRoot.None? ==> r == Success(Percent100)
    ensures !IsFullWidthMode(editorMode) && IsNoteRootMode(editorMode) && preview.Some? && noteRoot.Some? ==>
      r == Success(Split(noteRoot.value.offsetWidth, editorWidthValue))
    ensures !IsFullWidthMode(editorMode) && !IsNoteRootMode(editorMode) && preview.Some? && noteRoot.Some? ==>
      r == (match preview.value.offsetParentWidth
            case None => Failure(TypeError)
            case Some(w) => Success(Split(w, editorWidthValue)))
  {
    if editorMode == "normal" then Success(Percent100)
    else if editorMode == "preview" then Success(Percent100)
    else if !preview.Some? || !noteRoot.Some? then Success(Percent100)
    else
      var parentWidth :=
        if editorMode == "edit" || editorMode == "write" then Some(noteRoot.value.offsetWidth)
        else preview.value.offsetParentWidth;
      match parentWidth
      case None => Failure(TypeError)
      case Some(w) =>
        var res := if editorWidthValue != 0.0 && w != 0.0 then Px(w * (1.0 - editorWidthValue)) else Percent100;
        Success(res)
  }

  /** With a share between 0 and 1 and measured widths that are not
      negative, the width is never negative and a pixel width never exceeds
      the width it was measured against. */
  lemma WidthInRange(editorMode: string, editorWidthValue: real, preview: Option<PreviewNode>, noteRoot: Option<NoteRoot>)
    requires 0.0 <= editorWidthValue <= 1.0
    requires noteRoot.Some? ==> noteRoot.value.offsetWidth >= 0.0
    requires preview.Some? && preview.value.offsetParentWidth.Some? ==> preview.value.offsetParentWidth.value >= 0.0
    ensures var r := GetBodyWidth(editorMode, editorWidthValue, preview, noteRoot);
      r.Success? && r.value.Px? ==>
        0.0 <= r.value.width &&
        (IsNoteRootMode(editorMode) ==> r.value.width < noteRoot.value.offsetWidth) &&
        (!IsNoteRootMode(editorMode) ==> r.value.width < preview.value.offsetParentWidth.value)
  {
    var r := GetBodyWidth(editorMode, editorWidthValue, preview, noteRoot);
    if r.Success? && r.value.Px? {
      if IsNoteRootMode(editorMode) {
        SplitInRange(noteRoot.value.offsetWidth, editorWidthValue);
      } else {
        SplitInRange(preview.value.offsetParentWidth.value, editorWidthValue);
      }
    }
  }

  /** A pixel split of a width that is not negative lies below that width. */
  lemma SplitInRange(w: real, e: real)
    requires 0.0 <= w && 0.0 <= e <= 1.0
    ensures Split(w, e).Px? ==> 0.0 <= Split(w, e).width < w
  {
    if e != 0.0 && w != 0.0 {
      assert 0.0 <= 1.0 - e < 1.0;
      assert 0.0 <= w * (1.0 - e);
      assert w * (1.0 - e) < w * 1.0;
    }
  }

  /** Edit and write modes never look at the offset parent; the other split
      modes never look at the note container's width. */
  lemma MeasuredAnchor(editorMode: string, editorWidthValue: real, p1: PreviewNode, p2: PreviewNode, n1: NoteRoot, n2: NoteRoot)
    ensures IsNoteRootMode(editorMode) ==>
      GetBodyWidth(editorMode, editorWidthValue, Some(p1), Some(n1)) == GetBodyWidth(editorMode, editorWidthValue, Some(p2), Some(n1))
    ensures !IsNoteRootMode(editorMode) ==>
      GetBodyWidth(editorMode, editorWidthValue, Some(p1), Some(n1)) == GetBodyWidth(editorMode, editorWidthValue, Some(p1), Some(n2))
  {
  }

  /** Preview mode fills the container; edit mode at a 0.3 split of 1000
      pixels leaves 700 pixels. */
  lemma Examples(p: PreviewNode)
    ensures GetBodyWidth("preview", 0.5, Some(p), Some(NoteRoot(1000.0))) == Success(Percent100)
    ensures GetBodyWidth("edit", 0.3, Some(p), Some(NoteRoot(1000.0))) == Success(Px(700.0))
  {
  }
}
